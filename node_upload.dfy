/**
 * The second upload variant, `server/server.js`: a multer file filter that accepts a file when
 * EITHER its declared MIME type OR its extension is listed, a generated stored name, the
 * `POST /api/upload` handler, and the error-handling middleware that turns errors into statuses.
 * Its limits and whitelists are its own; they are not those of the PHP script.
 * `Date.now()` and `Math.round(Math.random() * 1E9)` are the parameters `now` and `random`.
 */
module NodeUpload {
  import opened Wrappers
  import opened Text

  /** multer's `limits.fileSize`: 100 MiB. */
  const MaxFileSize := 100 * 1024 * 1024

  const AllowedTypes: seq<string> := [
    "image/jpeg", "image/jpg", "image/png",
    "model/stl", "application/sla", "model/obj", "application/x-tgif",
    "application/zip", "application/x-zip-compressed", "application/x-tar",
    "application/x-7z-compressed", "application/x-rar-compressed",
    "application/octet-stream"]

  const AllowedExtensions: seq<string> :=
    [".stl", ".obj", ".dae", ".zip", ".tar", ".7z", ".rar", ".png", ".jpg", ".jpeg"]

  /** The prefix of the filter's error message, which is also the text the middleware compares with. */
  const UnsupportedType := "Неподдерживаемый тип файла"

  /** One file part of a multipart request as multer sees it. */
  datatype FilePart = FilePart(fieldName: string, originalName: string, mimetype: string, size: nat)

  /** An error handed to the error middleware. */
  datatype ServerError =
    | MulterError(code: string, message: string)
    | PlainError(message: string)

  /** What the route hands back for a stored file. */
  datatype StoredInfo = StoredInfo(originalName: string, filename: string, size: nat, mimetype: string, url: string)

  datatype ServerResponse = ServerResponse(status: int, success: bool, message: string, file: Option<StoredInfo>)

  /* ---------- fileFilter ---------- */

  /** `'.' + name.split('.').pop().toLowerCase()`: the last '.'-separated segment, or the whole name. */
  function FilterExtension(originalName: string): (r: string)
    ensures |r| >= 1 && r[0] == '.'
  {
    match LastIndexOf(originalName, '.')
    case None => "." + ToLower(originalName)
    case Some(i) => "." + ToLower(originalName[i + 1..])
  }

  /** `fileFilter`: the declared type OR the computed extension must be listed. */
  predicate FileFilter(mimetype: string, originalName: string) {
    mimetype in AllowedTypes || FilterExtension(originalName) in AllowedExtensions
  }

  /** A name without any '.' is its own extension. */
  lemma NoDotNameIsExtension(originalName: string)
    requires '.' !in originalName
    ensures FilterExtension(originalName) == "." + ToLower(originalName)
  {
  }

  /** So a file called "stl", whatever its declared type, passes the filter. */
  lemma FileNamedStlPasses(mimetype: string)
    ensures FileFilter(mimetype, "stl")
  {
    assert FilterExtension("stl") == ".stl" by {
      assert LastIndexOf("stl", '.') == None;
      assert ToLower("stl") == "stl";
    }
  }

  /** A file declared `application/octet-stream` passes whatever its name. */
  lemma OctetStreamPassesAnyName(originalName: string)
    ensures FileFilter("application/octet-stream", originalName)
  {
    assert AllowedTypes[12] == "application/octet-stream";
  }

  /** ".fbx" is not listed: such a file passes only on a listed declared type. */
  lemma FbxOnlyByType(originalName: string, mimetype: string)
    requires FilterExtension(originalName) == ".fbx"
    ensures FileFilter(mimetype, originalName) <==> mimetype in AllowedTypes
  {
  }

  /* ---------- storage.filename ---------- */

  /** Node's `path.extname` on a POSIX path: from the last '.' of the last component, or "" when
      there is none, when it is the component's first character, or when the component is "..". */
  function ExtName(path: string): (r: string)
    ensures r == "" || (r[0] == '.' && '.' !in r[1..] && '/' !in r)
    ensures EndsWith(BaseName(path), r) && |r| < |BaseName(path)| + if r == "" then 1 else 0
  {
    var c := BaseName(path);
    match LastIndexOf(c, '.')
    case None => ""
    case Some(k) => if k == 0 || c == ".." then "" else c[k..]
  }

  /** `path.basename(name, extension)`: the last component without its extension. */
  function StemName(path: string): (r: string)
    ensures '/' !in r
    ensures BaseName(path) == r + ExtName(path)
  {
    var c := BaseName(path);
    var e := ExtName(path);
    assert c == c[..|c| - |e|] + e;
    c[..|c| - |e|]
  }

  /** The decimal part of the stored name, which holds neither '/' nor '.'. */
  function Suffix(now: nat, random: nat): (r: string)
    ensures '/' !in r && '.' !in r
  {
    var a := NatToString(now);
    var b := NatToString(random);
    assert forall i :: 0 <= i < |a| ==> IsDigit(a[i]);
    assert forall i :: 0 <= i < |b| ==> IsDigit(b[i]);
    "-" + a + "-" + b
  }

  /** The callback's `${basename}-${uniqueSuffix}${extension}`. */
  function StoredName(originalName: string, now: nat, random: nat): string {
    StemName(originalName) + Suffix(now, random) + ExtName(originalName)
  }

  /** The stored name never holds a '/', so it stays inside the uploads directory. */
  lemma StoredNameHasNoSlash(originalName: string, now: nat, random: nat)
    ensures '/' !in StoredName(originalName, now, random)
  {
  }

  /** `path.extname` of a slash-free `head.rest` with a dot-free rest (`head` neither "" nor ".",
      since ".x" has no extension and ".." is special). */
  lemma ExtNameOfSplit(head: string, rest: string)
    requires head != "" && head != "." && '/' !in head && '/' !in rest && '.' !in rest
    ensures ExtName(head + ['.'] + rest) == ['.'] + rest
  {
    var s := head + ['.'] + rest;
    assert '/' !in s;
    BaseNameNoSlash(s);
    LastIndexOfSplit(head, '.', rest);
    assert s != ".." by {
      if |s| == 2 { assert |head| == 1 && s[0] == head[0]; }
    }
    assert s[|head|..] == ['.'] + rest;
  }

  /** The decimal part starts with '-'. */
  lemma SuffixStartsWithDash(now: nat, random: nat)
    ensures Suffix(now, random) != "" && Suffix(now, random)[0] == '-'
  {
  }

  /** A slash-free name that is neither "" nor "." followed by an extension has that extension. */
  lemma ExtNameOfAppended(head: string, e: string)
    requires head != "" && head != "." && '/' !in head
    requires e != "" && e[0] == '.' && '.' !in e[1..] && '/' !in e
    ensures EndsWith(head + e, e)
    ensures ExtName(head + e) == e
  {
    EndsWithConcat(head, e);
    assert e == ['.'] + e[1..];
    assert head + e == head + ['.'] + e[1..];
    ExtNameOfSplit(head, e[1..]);
  }

  /** The stored name ends in the original extension, its case kept, and `path.extname`
      gives that extension back. */
  lemma StoredNameKeepsExtension(originalName: string, now: nat, random: nat)
    requires ExtName(originalName) != ""
    ensures EndsWith(StoredName(originalName, now, random), ExtName(originalName))
    ensures ExtName(StoredName(originalName, now, random)) == ExtName(originalName)
  {
    var e := ExtName(originalName);
    var stem := StemName(originalName);
    var sfx := Suffix(now, random);
    SuffixStartsWithDash(now, random);
    var head := stem + sfx;
    assert head[|stem|] == '-';
    assert StoredName(originalName, now, random) == head + e;
    ExtNameOfAppended(head, e);
  }

  /* ---------- route and error middleware ---------- */

  /** The error middleware: a multer size-limit error and an error whose message is exactly the
      bare "unsupported type" text give 400; anything else gives 500. */
  function ErrorResponse(e: ServerError): (r: ServerResponse)
    ensures !r.success && r.file.None?
    ensures r.status == 400 <==> (e.MulterError? && e.code == "LIMIT_FILE_SIZE") || e.message == UnsupportedType
    ensures r.status != 400 ==> r.status == 500
  {
    if e.MulterError? && e.code == "LIMIT_FILE_SIZE" then
      ServerResponse(400, false, "Файл слишком большой. Максимальный размер: 100MB", None)
    else if e.message == UnsupportedType then
      ServerResponse(400, false, UnsupportedType, None)
    else
      ServerResponse(500, false, "Внутренняя ошибка сервера", None)
  }

  /** The error the filter passes to its callback. */
  function FilterRejection(f: FilePart): ServerError {
    PlainError(UnsupportedType + ": " + f.mimetype + " (" + FilterExtension(f.originalName) + ")")
  }

  /** The filter's message carries a suffix, so the middleware's exact comparison never matches it. */
  lemma FilterRejectionIsNotBareMessage(f: FilePart)
    ensures FilterRejection(f).message != UnsupportedType
  {
    assert |FilterRejection(f).message| > |UnsupportedType|;
  }

  /** The file multer hands to the route as `req.file`: a part without a file name is skipped
      before any other check, as if no file had been sent. */
  function ReceivedPart(part: Option<FilePart>): (r: Option<FilePart>)
    ensures r.Some? <==> part.Some? && part.value.originalName != ""
    ensures r.Some? ==> r == part
  {
    if part.Some? && part.value.originalName != "" then part else None
  }

  /** `POST /api/upload` through `upload.single('file')`, the route and the error middleware. */
  method HandleUpload(part: Option<FilePart>, now: nat, random: nat) returns (resp: ServerResponse)
    // no part, or a part whose file name is empty, leaves `req.file` unset
    ensures ReceivedPart(part).None? ==> resp == ServerResponse(400, false, "Файл не найден", None)
    // a file under another field name is multer's LIMIT_UNEXPECTED_FILE, which falls through to 500
    ensures ReceivedPart(part).Some? && part.value.fieldName != "file" ==> resp.status == 500 && !resp.success
    // a filter rejection is not answered with 400 but with 500
    ensures ReceivedPart(part).Some? && part.value.fieldName == "file"
            && !FileFilter(part.value.mimetype, part.value.originalName)
            ==> resp.status == 500 && !resp.success
    ensures ReceivedPart(part).Some? && part.value.fieldName == "file"
            && FileFilter(part.value.mimetype, part.value.originalName)
            && part.value.size > MaxFileSize
            ==> resp.status == 400 && !resp.success
    ensures resp.success <==>
              ReceivedPart(part).Some? && part.value.fieldName == "file"
              && FileFilter(part.value.mimetype, part.value.originalName)
              && part.value.size <= MaxFileSize
    ensures resp.success ==> resp.status == 200 && resp.file.Some?
    ensures resp.success ==>
              var info := resp.file.value;
              && info.filename == StoredName(part.value.originalName, now, random)
              && info.url == "/uploads/" + info.filename
              && info.originalName == part.value.originalName
              && info.size == part.value.size
              && info.mimetype == part.value.mimetype
  {
    if ReceivedPart(part).None? {
      return ServerResponse(400, false, "Файл не найден", None);
    }
    var f := part.value;
    if f.fieldName != "file" {
      resp := ErrorResponse(MulterError("LIMIT_UNEXPECTED_FILE", "Unexpected field"));
      return;
    }
    if !FileFilter(f.mimetype, f.originalName) {
      FilterRejectionIsNotBareMessage(f);
      resp := ErrorResponse(FilterRejection(f));
      return;
    }
    if f.size > MaxFileSize {
      resp := ErrorResponse(MulterError("LIMIT_FILE_SIZE", "File too large"));
      return;
    }
    var filename := StoredName(f.originalName, now, random);
    var info := StoredInfo(f.originalName, filename, f.size, f.mimetype, "/uploads/" + filename);
    return ServerResponse(200, true, "Файл успешно загружен", Some(info));
  }
}
