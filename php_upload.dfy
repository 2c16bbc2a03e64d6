/**
 * The upload endpoint script `public/api/upload.php`: an ordered chain of checks, each ending
 * the request early with a fixed (status, error code) pair, followed by the synthesis of a safe
 * stored filename and of the public URL under which the file is served.
 *
 * A PHP string is a byte string; in this model each `char` of a file name stands for one byte.
 * The script's side-effecting primitives (content sniffing, `is_uploaded_file`, `is_dir`/`mkdir`,
 * `move_uploaded_file`, `date`, `random_bytes`/`mt_rand`) are the fields of `Env`.
 */
module PhpUpload {
  import opened Wrappers
  import opened Text

  // PHP's UPLOAD_ERR_* constants
  const UPLOAD_ERR_OK := 0
  const UPLOAD_ERR_INI_SIZE := 1
  const UPLOAD_ERR_FORM_SIZE := 2
  const UPLOAD_ERR_PARTIAL := 3
  const UPLOAD_ERR_NO_FILE := 4

  /** 25 MiB: the largest accepted declared size. */
  const MaxSize := 25 * 1024 * 1024

  const AllowedExts: seq<string> :=
    ["stl", "obj", "dae", "fbx", "zip", "tar", "rar", "7z", "7zip", "png", "jpg", "jpeg"]

  const AllowedMimes: seq<string> := [
    "image/png", "image/jpeg",
    "application/zip", "application/x-tar", "application/x-rar-compressed", "application/x-7z-compressed",
    "application/xml", "text/xml", "model/vnd.collada+xml",
    "application/octet-stream", "text/plain", "model/stl"]

  const CadExts: seq<string> := ["stl", "obj", "dae", "fbx"]

  const OctetStream := "application/octet-stream"

  /** The entries of `$_FILES['file']` that the script reads, each possibly unset. */
  datatype FileEntry = FileEntry(error: Option<int>, size: Option<int>, name: Option<string>)

  /** `$_FILES['file']`: unset, set to something other than an array, or an array. */
  datatype FileField = Absent | NotArray | Entry(entry: FileEntry)

  datatype Request = Request(requestMethod: string, file: FileField, scriptName: Option<string>)

  /** The clock reading that `date('Ymd_His')` formats. */
  datatype Timestamp = Timestamp(year: nat, month: nat, day: nat, hour: nat, minute: nat, second: nat)

  /** The random part of the stored name: `random_bytes(4)`, or `mt_rand` when that throws. */
  datatype RandomSuffix = RandomBytes(bytes: seq<bv8>) | MtRand(n: nat)

  /** What the file system, the clock and the random source answer during one request. */
  datatype Env = Env(
    isUploadedFile: bool,     // is_uploaded_file($tmpPath)
    sniffed: Option<string>,  // finfo's answer; None when finfo_open or finfo_file failed
    dirExists: bool,          // is_dir($uploadsDirFs) before creating it
    mkdirOk: bool,            // mkdir($uploadsDirFs, 0755, true)
    dirExistsAfter: bool,     // is_dir($uploadsDirFs) after a failed mkdir (a concurrent creator)
    now: Timestamp,
    random: RandomSuffix,
    moveOk: bool)             // move_uploaded_file($tmpPath, $targetPath)

  /** The status and JSON payload passed to `respond`. */
  datatype Response =
    | Reject(status: int, error: string, detectedMime: Option<string>)
    | Accept(url: string, name: string, size: int, mime: string)

  /* ---------- pathinfo ---------- */

  /** `pathinfo($path, PATHINFO_EXTENSION)`: the text after the last '.' of the base name, or "". */
  function Extension(path: string): (r: string)
    ensures '.' !in r
  {
    var b := BaseName(path);
    match LastIndexOf(b, '.')
    case None => ""
    case Some(i) => b[i + 1..]
  }

  /** `pathinfo($path, PATHINFO_FILENAME)`: the base name up to its last '.'. */
  function FileNameStem(path: string): string {
    var b := BaseName(path);
    match LastIndexOf(b, '.')
    case None => b
    case Some(i) => b[..i]
  }

  /** A name without a '.' has the empty extension, which the whitelist does not hold. */
  lemma NoDotNoExtension(name: string)
    requires '.' !in name
    ensures Extension(name) == ""
    ensures ToLower(Extension(name)) !in AllowedExts
  {
    var t := TrimRight(name, '/');
    assert forall c :: c in t ==> c in name;
    var b := BaseName(name);
    assert forall c :: c in b ==> c in t;
  }

  /** The stem and the extension together give back the base name. */
  lemma StemAndExtension(path: string)
    ensures var b := BaseName(path);
            if '.' in b then b == FileNameStem(path) + "." + Extension(path) else b == FileNameStem(path) && Extension(path) == ""
  {
    var b := BaseName(path);
    match LastIndexOf(b, '.')
    case None =>
    case Some(i) =>
      assert b == b[..i] + "." + b[i + 1..];
  }

  /* ---------- checks ---------- */

  /** The error code of `(int)$file['error']` that the switch rejects, with its response. */
  function TransportRejection(code: int): (r: Option<Response>)
    ensures r.None? <==> code == UPLOAD_ERR_OK
    ensures r.Some? ==> r.value.Reject? && r.value.detectedMime.None?
    ensures r.Some? ==> (r.value.status == 413 <==> code == UPLOAD_ERR_INI_SIZE || code == UPLOAD_ERR_FORM_SIZE)
  {
    if code == UPLOAD_ERR_OK then None
    else if code == UPLOAD_ERR_INI_SIZE || code == UPLOAD_ERR_FORM_SIZE then Some(Reject(413, "FILE_TOO_LARGE", None))
    else if code == UPLOAD_ERR_PARTIAL then Some(Reject(400, "PARTIAL_UPLOAD", None))
    else if code == UPLOAD_ERR_NO_FILE then Some(Reject(400, "NO_FILE", None))
    else Some(Reject(400, "UPLOAD_ERROR_" + IntToString(code), None))
  }

  /** The MIME type the script works with: a failed or empty sniff counts as generic binary. */
  function EffectiveMime(sniffed: Option<string>): (m: string)
    ensures m != ""
    ensures sniffed.Some? && sniffed.value != "" ==> m == sniffed.value
  {
    match sniffed
    case Some(s) => if s == "" then OctetStream else s
    case None => OctetStream
  }

  /** The MIME policy: the whitelist, or the CAD fallback for binary and plain-text sniffs. */
  predicate MimeAllowed(ext: string, mime: string) {
    mime in AllowedMimes || (ext in CadExts && (mime == OctetStream || mime == "text/plain"))
  }

  /** The CAD fallback admits nothing that the whitelist does not already admit. */
  lemma CadFallbackAdmitsNothingExtra(ext: string, mime: string)
    ensures MimeAllowed(ext, mime) <==> mime in AllowedMimes
  {
    assert AllowedMimes[9] == OctetStream && AllowedMimes[10] == "text/plain";
  }

  /* ---------- stored filename ---------- */

  /** The characters that survive `preg_replace('/[^A-Za-z0-9._-]/', '_', ...)`. */
  predicate IsSafeChar(c: char) {
    IsAlnum(c) || c == '.' || c == '_' || c == '-'
  }

  /** Every character outside `[A-Za-z0-9._-]` replaced by '_'. */
  function Sanitize(s: string): (r: string)
    ensures |r| == |s|
    ensures forall i :: 0 <= i < |r| ==> IsSafeChar(r[i])
    ensures forall i :: 0 <= i < |s| && IsSafeChar(s[i]) ==> r[i] == s[i]
    ensures forall i :: 0 <= i < |s| && !IsSafeChar(s[i]) ==> r[i] == '_'
  {
    seq(|s|, i requires 0 <= i < |s| => if IsSafeChar(s[i]) then s[i] else '_')
  }

  /** The sanitised base: only safe characters, never empty, at most 80 of them. */
  function SafeBase(stem: string): (r: string)
    ensures 1 <= |r| <= 80
    ensures forall i :: 0 <= i < |r| ==> IsSafeChar(r[i])
    ensures stem != "" ==> r == Sanitize(stem)[..if |stem| < 80 then |stem| else 80]
    ensures stem == "" ==> r == "file"
  {
    var b := Sanitize(stem);
    var b := if b != "" then b else "file";
    if |b| <= 80 then b else b[..80]
  }

  /** `date('Ymd_His')`. */
  function FormatDate(t: Timestamp): string {
    PadNat(t.year, 4) + PadNat(t.month, 2) + PadNat(t.day, 2) + "_"
      + PadNat(t.hour, 2) + PadNat(t.minute, 2) + PadNat(t.second, 2)
  }

  /** `bin2hex(random_bytes(4))`, or `(string)mt_rand(...)` on the fallback path. */
  function UniqueSuffix(r: RandomSuffix): string {
    match r
    case RandomBytes(b) => BinToHex(b)
    case MtRand(n) => NatToString(n)
  }

  /** `$filename`: date, '_', random suffix, '_', sanitised base, '.', extension. */
  function StoredFileName(t: Timestamp, r: RandomSuffix, base: string, ext: string): string {
    FormatDate(t) + "_" + UniqueSuffix(r) + "_" + base + "." + ext
  }

  /** The unreserved characters of section 2.3 of RFC 3986, the ones `rawurlencode` keeps. */
  predicate IsUnreserved(c: char) {
    IsAlnum(c) || c == '-' || c == '.' || c == '_' || c == '~'
  }

  predicate AllUnreserved(s: string) {
    forall i :: 0 <= i < |s| ==> IsUnreserved(s[i])
  }

  lemma UnreservedHasNoSlash(s: string)
    requires AllUnreserved(s)
    ensures '/' !in s
  {
  }

  lemma UnreservedConcat(a: string, b: string)
    requires AllUnreserved(a) && AllUnreserved(b)
    ensures AllUnreserved(a + b)
  {
  }

  /** Every whitelisted extension is lower-case letters and digits only. */
  lemma AllowedExtsAreAlnum(ext: string)
    requires ext in AllowedExts
    ensures forall i :: 0 <= i < |ext| ==> IsDigit(ext[i]) || IsLower(ext[i])
    ensures ext != "" && '.' !in ext
  {
  }

  /** `pathinfo` gives back the extension after the last '.' of a slash-free name. */
  lemma ExtensionOfSplit(head: string, ext: string)
    requires '/' !in head && '/' !in ext && '.' !in ext
    ensures Extension(head + "." + ext) == ext
  {
    var f := head + "." + ext;
    assert f == head + ['.'] + ext;
    BaseNameNoSlash(f);
    LastIndexOfSplit(head, '.', ext);
    assert f[|head| + 1..] == ext;
  }

  /** The date and the random suffix are made of unreserved characters. */
  lemma StampUnreserved(t: Timestamp, r: RandomSuffix)
    ensures AllUnreserved(FormatDate(t) + "_" + UniqueSuffix(r) + "_")
  {
  }

  /** With a sanitised base and a whitelisted extension, the stored name is made of unreserved
      characters only, ends in '.' + ext, and `pathinfo` recovers ext from it. */
  lemma StoredFileNameShape(t: Timestamp, r: RandomSuffix, base: string, ext: string)
    requires forall i :: 0 <= i < |base| ==> IsSafeChar(base[i])
    requires ext in AllowedExts
    ensures AllUnreserved(StoredFileName(t, r, base, ext))
    ensures EndsWith(StoredFileName(t, r, base, ext), "." + ext)
    ensures Extension(StoredFileName(t, r, base, ext)) == ext
  {
    AllowedExtsAreAlnum(ext);
    StampUnreserved(t, r);
    var stamp := FormatDate(t) + "_" + UniqueSuffix(r) + "_";
    var head := stamp + base;
    var f := StoredFileName(t, r, base, ext);
    assert f == head + ("." + ext);
    assert AllUnreserved(base);
    UnreservedConcat(stamp, base);
    assert AllUnreserved("." + ext);
    UnreservedConcat(head, "." + ext);
    EndsWithConcat(head, "." + ext);
    UnreservedHasNoSlash(head);
    UnreservedHasNoSlash(ext);
    ExtensionOfSplit(head, ext);
  }

  /* ---------- public URL ---------- */

  /** PHP's `dirname` with '/' as the only separator. */
  function DirName(path: string): string {
    if path == "" then ""
    else
      var t := TrimRight(path, '/');
      if t == "" then "/"
      else match LastIndexOf(t, '/')
        case None => "."
        case Some(i) =>
          var d := TrimRight(t[..i], '/');
          if d == "" then "/" else d
  }

  /** `preg_replace('#/api$#', '', $s)`: PCRE's `$` also matches before a final newline. */
  function StripApiSuffix(s: string): (r: string)
    ensures |r| <= |s|
  {
    if EndsWith(s, "/api") then s[..|s| - 4]
    else if EndsWith(s, "/api\n") then s[..|s| - 5] + "\n"
    else s
  }

  /** `rawurlencode` of one byte: unreserved characters kept, anything else as %XX. */
  function EncodeByte(c: char): (r: string)
    requires c as int < 256
  {
    if IsUnreserved(c) then [c]
    else ['%', "0123456789ABCDEF"[c as int / 16], "0123456789ABCDEF"[c as int % 16]]
  }

  predicate IsByteString(s: string) {
    forall i :: 0 <= i < |s| ==> s[i] as int < 256
  }

  function RawUrlEncode(s: string): (r: string)
    requires IsByteString(s)
    ensures |r| >= |s|
  {
    if s == [] then [] else EncodeByte(s[0]) + RawUrlEncode(s[1..])
  }

  /** On unreserved text, `rawurlencode` is the identity. */
  lemma {:induction false} RawUrlEncodeUnreserved(s: string)
    requires AllUnreserved(s)
    ensures IsByteString(s) && RawUrlEncode(s) == s
  {
    if s != [] {
      RawUrlEncodeUnreserved(s[1..]);
      assert s == [s[0]] + s[1..];
    }
  }

  /** `rawurlencode` changes any text that holds a reserved byte. */
  lemma {:induction false} RawUrlEncodeReserved(s: string, k: nat)
    requires IsByteString(s) && k < |s| && !IsUnreserved(s[k])
    ensures RawUrlEncode(s) != s
  {
    if |RawUrlEncode(s)| == |s| {
      RawUrlEncodeLengthEqual(s);
      assert false;
    }
  }

  /** Equal length means nothing was escaped. */
  lemma {:induction false} RawUrlEncodeLengthEqual(s: string)
    requires IsByteString(s) && |RawUrlEncode(s)| == |s|
    ensures AllUnreserved(s)
  {
    if s != [] {
      assert |EncodeByte(s[0])| >= 1;
      RawUrlEncodeLengthEqual(s[1..]);
    }
  }

  /** The site base path: the script's directory, without a trailing "/api" and trailing slashes. */
  function SiteBase(scriptName: Option<string>): (r: string)
    ensures r == "" || r[|r| - 1] != '/'
  {
    var scriptDir := TrimRight(ReplaceChar(DirName(scriptName.GetOr("/")), '\\', '/'), '/');
    TrimRight(StripApiSuffix(scriptDir), '/')
  }

  /** `$url`: the site base, "/uploads/", and the percent-encoded stored name. */
  function PublicUrl(scriptName: Option<string>, filename: string): (r: string)
    requires IsByteString(filename)
    ensures EndsWith(r, "/uploads/" + RawUrlEncode(filename))
  {
    var tail := "/uploads/" + RawUrlEncode(filename);
    EndsWithConcat(SiteBase(scriptName), tail);
    SiteBase(scriptName) + tail
  }

  /** The directory of `dir/script` is `dir` when `dir` is non-empty and has no trailing slash. */
  lemma DirNameOfJoin(dir: string, script: string)
    requires dir != "" && dir[|dir| - 1] != '/'
    requires script != "" && '/' !in script
    ensures DirName(dir + "/" + script) == dir
  {
    var p := dir + "/" + script;
    assert p == dir + ['/'] + script;
    assert p[|p| - 1] == script[|script| - 1];
    assert TrimRight(p, '/') == p;
    LastIndexOfSplit(dir, '/', script);
    assert p[..|dir|] == dir;
  }

  /** Deployed at `site` (the domain root when `site` is ""), the script `site/api/<script>`
      serves uploads under `site/uploads/`. */
  lemma UrlUnderSubPath(site: string, script: string, filename: string)
    requires site == "" || site[|site| - 1] != '/'
    requires '\\' !in site
    requires script != "" && '/' !in script
    requires AllUnreserved(filename)
    ensures IsByteString(filename)
    ensures PublicUrl(Some(site + "/api/" + script), filename) == site + "/uploads/" + filename
  {
    RawUrlEncodeUnreserved(filename);
    var dir := site + "/api";
    var p := site + "/api/" + script;
    assert p == dir + "/" + script;
    DirNameOfJoin(dir, script);
    assert Some(p).GetOr("/") == p;
    assert '\\' !in dir;
    ReplaceCharAbsent(dir, '\\', '/');
    TrimRightNothing(dir, '/');
    assert dir[|dir| - 4..] == "/api" && dir[..|dir| - 4] == site;
    assert StripApiSuffix(dir) == site;
    TrimRightNothing(site, '/');
    assert SiteBase(Some(p)) == site;
  }

  /* ---------- the script ---------- */

  /** `$originalName`: the declared name, or "file" when unset. */
  function OriginalName(e: FileEntry): string {
    e.name.GetOr("file")
  }

  /** The request passes the method, presence, payload-shape and transport checks. */
  predicate TransportOk(req: Request) {
    req.requestMethod == "POST" && req.file.Entry? && req.file.entry.error == Some(UPLOAD_ERR_OK)
  }

  /** ... and the declared-size checks. */
  predicate SizeOk(req: Request) {
    TransportOk(req) && req.file.entry.size.Some? && 0 < req.file.entry.size.value <= MaxSize
  }

  /** The lower-cased extension the script validates. */
  function RequestExt(req: Request): string
    requires req.file.Entry?
  {
    ToLower(Extension(OriginalName(req.file.entry)))
  }

  /** ... and the extension whitelist, the tmp-file check and the MIME policy. */
  predicate ContentOk(req: Request, env: Env) {
    SizeOk(req) && RequestExt(req) in AllowedExts && env.isUploadedFile
    && MimeAllowed(RequestExt(req), EffectiveMime(env.sniffed))
  }

  /** The upload script: every check in order, each answering with its fixed response. */
  method Handle(req: Request, env: Env) returns (resp: Response)
    // method check, before anything else
    ensures req.requestMethod != "POST" ==> resp == Reject(405, "METHOD_NOT_ALLOWED", None)
    // presence and payload shape
    ensures req.requestMethod == "POST" && req.file.Absent? ==> resp == Reject(400, "NO_FILE", None)
    ensures req.requestMethod == "POST" && (req.file.NotArray? || (req.file.Entry? && req.file.entry.error.None?))
            ==> resp == Reject(400, "INVALID_FILE_PAYLOAD", None)
    // transport error codes
    ensures req.requestMethod == "POST" && req.file.Entry? && req.file.entry.error.Some?
            && req.file.entry.error.value != UPLOAD_ERR_OK
            ==> Some(resp) == TransportRejection(req.file.entry.error.value)
    // declared size: missing or non-positive, too large; exactly MaxSize passes
    ensures TransportOk(req) && (req.file.entry.size.None? || req.file.entry.size.value <= 0)
            ==> resp == Reject(400, "INVALID_SIZE", None)
    ensures TransportOk(req) && req.file.entry.size.Some? && req.file.entry.size.value > MaxSize
            ==> resp == Reject(413, "FILE_TOO_LARGE", None)
    // extension whitelist, tmp-file authenticity, MIME policy
    ensures SizeOk(req) && RequestExt(req) !in AllowedExts ==> resp == Reject(400, "EXTENSION_NOT_ALLOWED", None)
    ensures SizeOk(req) && RequestExt(req) in AllowedExts && !env.isUploadedFile
            ==> resp == Reject(400, "INVALID_TMP_FILE", None)
    ensures SizeOk(req) && RequestExt(req) in AllowedExts && env.isUploadedFile
            && EffectiveMime(env.sniffed) !in AllowedMimes
            ==> resp == Reject(400, "MIME_NOT_ALLOWED", Some(EffectiveMime(env.sniffed)))
    // file system
    ensures ContentOk(req, env) && !env.dirExists && !env.mkdirOk && !env.dirExistsAfter
            ==> resp == Reject(500, "FAILED_TO_CREATE_UPLOAD_DIR", None)
    ensures ContentOk(req, env) && (env.dirExists || env.mkdirOk || env.dirExistsAfter) && !env.moveOk
            ==> resp == Reject(500, "MOVE_FAILED", None)
    // success: exactly when every check passed
    ensures resp.Accept? <==> ContentOk(req, env) && (env.dirExists || env.mkdirOk || env.dirExistsAfter) && env.moveOk
    ensures resp.Accept? ==>
              && resp.name == OriginalName(req.file.entry)
              && resp.size == req.file.entry.size.value
              && resp.mime == EffectiveMime(env.sniffed)
              && resp.mime in AllowedMimes
    ensures resp.Accept? ==>
              var filename := StoredFileName(env.now, env.random,
                                             SafeBase(FileNameStem(OriginalName(req.file.entry))), RequestExt(req));
              && EndsWith(filename, "." + RequestExt(req))
              && resp.url == SiteBase(req.scriptName) + "/uploads/" + filename
    ensures resp.Reject? ==> resp.status in {400, 405, 413, 500}
  {
    if req.requestMethod != "POST" {
      return Reject(405, "METHOD_NOT_ALLOWED", None);
    }
    if req.file.Absent? {
      return Reject(400, "NO_FILE", None);
    }
    if req.file.NotArray? || req.file.entry.error.None? {
      return Reject(400, "INVALID_FILE_PAYLOAD", None);
    }
    var file := req.file.entry;

    var code := file.error.value;
    if code == UPLOAD_ERR_INI_SIZE || code == UPLOAD_ERR_FORM_SIZE {
      return Reject(413, "FILE_TOO_LARGE", None);
    } else if code == UPLOAD_ERR_PARTIAL {
      return Reject(400, "PARTIAL_UPLOAD", None);
    } else if code == UPLOAD_ERR_NO_FILE {
      return Reject(400, "NO_FILE", None);
    } else if code != UPLOAD_ERR_OK {
      return Reject(400, "UPLOAD_ERROR_" + IntToString(code), None);
    }

    if file.size.None? || file.size.value <= 0 {
      return Reject(400, "INVALID_SIZE", None);
    }
    if file.size.value > MaxSize {
      return Reject(413, "FILE_TOO_LARGE", None);
    }

    var originalName := OriginalName(file);
    var ext := ToLower(Extension(originalName));
    if ext !in AllowedExts {
      return Reject(400, "EXTENSION_NOT_ALLOWED", None);
    }

    if !env.isUploadedFile {
      return Reject(400, "INVALID_TMP_FILE", None);
    }

    var mime := if env.sniffed.Some? then env.sniffed.value else OctetStream;
    if mime == "" {
      mime := OctetStream;
    }
    if mime !in AllowedMimes {
      if !(ext in CadExts && (mime == OctetStream || mime == "text/plain")) {
        return Reject(400, "MIME_NOT_ALLOWED", Some(mime));
      }
    }
    CadFallbackAdmitsNothingExtra(ext, mime);

    if !env.dirExists {
      if !env.mkdirOk && !env.dirExistsAfter {
        return Reject(500, "FAILED_TO_CREATE_UPLOAD_DIR", None);
      }
    }

    var base := Sanitize(FileNameStem(originalName));
    base := if base != "" then base else "file";
    base := if |base| <= 80 then base else base[..80];
    assert base == SafeBase(FileNameStem(originalName));
    var unique := UniqueSuffix(env.random);
    var filename := FormatDate(env.now) + "_" + unique + "_" + base + "." + ext;
    assert filename == StoredFileName(env.now, env.random, base, ext);

    if !env.moveOk {
      return Reject(500, "MOVE_FAILED", None);
    }

    StoredFileNameShape(env.now, env.random, base, ext);
    RawUrlEncodeUnreserved(filename);
    var url := TrimRight(StripApiSuffix(TrimRight(ReplaceChar(DirName(req.scriptName.GetOr("/")), '\\', '/'), '/')), '/')
               + "/uploads/" + RawUrlEncode(filename);
    return Accept(url, originalName, file.size.value, mime);
  }
}
