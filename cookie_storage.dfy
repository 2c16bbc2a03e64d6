/**
 * `src/lib/cookieStorage.ts`: a key/value storage that keeps values in localStorage until the user
 * consents to cookies and in cookies afterwards, and the listener that moves or deletes the
 * persisted store when consent changes.
 *
 * The cookie jar is a list of name/value cookies; `document.cookie` is their `name=value` pairs
 * joined by "; " (section 4.2.1 of RFC 6265). Writing a cookie replaces the value of the cookie of
 * that name in place, or adds one at the end; an expired write deletes it. localStorage is a map
 * that may be unavailable, in which case every access throws: reads give null and writes are lost.
 */
module CookieStorage {
  import opened Wrappers
  import opened Text
  import opened Seqs
  import opened UriComponent

  const ConsentKey := "cookie-consent"
  /** The key the consent listener migrates. */
  const StoreKey := "marketplace-store-v1"

  datatype Cookie = Cookie(name: string, value: string)

  /* ---------- the cookie jar ---------- */

  function Pair(c: Cookie): string {
    c.name + "=" + c.value
  }

  /** `document.cookie`. */
  function CookieString(jar: seq<Cookie>): string
    decreases |jar|
  {
    if jar == [] then ""
    else if |jar| == 1 then Pair(jar[0])
    else Pair(jar[0]) + "; " + CookieString(jar[1..])
  }

  /** The value of the first cookie of that name in the jar. */
  function CookieValue(jar: seq<Cookie>, name: string): Option<string>
    decreases |jar|
  {
    if jar == [] then None
    else if jar[0].name == name then Some(jar[0].value)
    else CookieValue(jar[1..], name)
  }

  /** The jar after `document.cookie = name=value; ...` with a future expiry: the named cookie
      holds the new value and every other name keeps its value. */
  function SetCookieIn(jar: seq<Cookie>, name: string, value: string): (r: seq<Cookie>)
    ensures CookieValue(r, name) == Some(value)
    ensures forall n :: n != name ==> CookieValue(r, n) == CookieValue(jar, n)
    decreases |jar|
  {
    if jar == [] then [Cookie(name, value)]
    else if jar[0].name == name then [jar[0].(value := value)] + jar[1..]
    else [jar[0]] + SetCookieIn(jar[1..], name, value)
  }

  /** The jar after an expired write of that name: the cookies of that name are gone. */
  function RemoveCookieFrom(jar: seq<Cookie>, name: string): seq<Cookie> {
    Filter(jar, (c: Cookie) => c.name != name)
  }

  lemma {:induction false} RemoveCookieSpec(jar: seq<Cookie>, name: string)
    ensures CookieValue(RemoveCookieFrom(jar, name), name) == None
    ensures forall n :: n != name ==> CookieValue(RemoveCookieFrom(jar, name), n) == CookieValue(jar, n)
    decreases |jar|
  {
    if jar != [] {
      RemoveCookieSpec(jar[1..], name);
    }
  }

  /** A cookie name as RFC 6265 allows it: a non-empty token of visible ASCII without separators. */
  predicate IsTokenChar(c: char) {
    '!' <= c <= '~'
    && c != '(' && c != ')' && c != '<' && c != '>' && c != '@' && c != ',' && c != ';' && c != ':'
    && c != '\\' && c != '"' && c != '/' && c != '[' && c != ']' && c != '?' && c != '=' && c != '{'
    && c != '}'
  }

  predicate IsToken(s: string) {
    |s| > 0 && forall i :: 0 <= i < |s| ==> IsTokenChar(s[i])
  }

  /** A cookie value character: visible ASCII except '"', ',', ';' and '\'. */
  predicate IsCookieOctet(c: char) {
    '!' <= c <= '~' && c != '"' && c != ',' && c != ';' && c != '\\'
  }

  predicate IsCookieValue(v: string) {
    forall i :: 0 <= i < |v| ==> IsCookieOctet(v[i])
  }

  predicate WellFormedJar(jar: seq<Cookie>) {
    forall i :: 0 <= i < |jar| ==> IsToken(jar[i].name) && IsCookieValue(jar[i].value)
  }

  /** What `encodeURIComponent` writes is a valid cookie value. */
  lemma EncodedIsCookieValue(v: string)
    ensures IsCookieValue(EncodeUriComponent(v))
  {
    var e := EncodeUriComponent(v);
    forall i | 0 <= i < |e| ensures IsCookieOctet(e[i]) {
      assert e[i] in e;
    }
  }

  lemma {:induction false} SetCookieWellFormed(jar: seq<Cookie>, name: string, value: string)
    requires WellFormedJar(jar) && IsToken(name) && IsCookieValue(value)
    ensures WellFormedJar(SetCookieIn(jar, name, value))
    decreases |jar|
  {
    if jar != [] && jar[0].name != name {
      SetCookieWellFormed(jar[1..], name, value);
    }
  }

  /* ---------- getCookie ---------- */

  /** The loop of `getCookie`: the text after `prefix` in the first trimmed part that starts with
      it. */
  function FindCookie(parts: seq<string>, prefix: string): Option<string>
    decreases |parts|
  {
    if parts == [] then None
    else
      var cookie := Trim(parts[0]);
      if StartsWith(cookie, prefix) then Some(cookie[|prefix|..]) else FindCookie(parts[1..], prefix)
  }

  /** `decodeURIComponent(raw)`, or `raw` itself when that throws. */
  function DecodeOrRaw(raw: string): string {
    match DecodeUriComponent(raw)
    case Some(d) => d
    case None => raw
  }

  /** `getCookie(key)` on the cookie string `cookies`. */
  function GetCookieValue(cookies: string, key: string): Option<string> {
    match FindCookie(Split(cookies, ';'), key + "=")
    case None => None
    case Some(raw) => Some(DecodeOrRaw(raw))
  }

  /** A well-formed pair matches `key=` exactly when its name is the key; the text after it is
      the value. The pair has no ';' and nothing for `trim` to remove. */
  lemma PairMatch(c: Cookie, key: string)
    requires IsToken(c.name) && IsCookieValue(c.value) && IsToken(key)
    ensures StartsWith(Pair(c), key + "=") <==> c.name == key
    ensures c.name == key ==> Pair(c)[|key + "="|..] == c.value
    ensures ';' !in Pair(c) && Trim(Pair(c)) == Pair(c)
  {
    var p := Pair(c);
    var n := |key| + 1;
    if c.name != key {
      // the first difference between `p` and `key=`
      if |key| < |c.name| {
        assert p[|key|] == c.name[|key|] && p[..n][|key|] == p[|key|];
      } else if |key| > |c.name| {
        assert p[|c.name|] == '=' && (key + "=")[|c.name|] == key[|c.name|];
        assert |p| >= n ==> p[..n][|c.name|] == p[|c.name|];
      } else {
        var i :| 0 <= i < |key| && c.name[i] != key[i];
        assert p[i] == c.name[i] && (key + "=")[i] == key[i] && p[..n][i] == p[i];
      }
    } else {
      assert p[..n] == key + "=";
      assert p[n..] == c.value;
    }
    assert forall i :: 0 <= i < |p| ==> p[i] != ';' by {
      forall i | 0 <= i < |p| ensures p[i] != ';' {
        if i < |c.name| { assert p[i] == c.name[i]; }
        else if i > |c.name| { assert p[i] == c.value[i - |c.name| - 1]; }
      }
    }
    TrimUntouched(p);
  }

  /** Scanning `a; rest` looks at `a` first, then at the parts of `rest`. */
  lemma FindAfterSeparator(a: string, rest: string, prefix: string)
    requires ';' !in a
    ensures FindCookie(Split(a + "; " + rest, ';'), prefix) ==
              if StartsWith(Trim(a), prefix) then Some(Trim(a)[|prefix|..])
              else FindCookie(Split(rest, ';'), prefix)
  {
    assert a + "; " + rest == a + [';'] + ([' '] + rest);
    SplitAtSeparator(a, ';', [' '] + rest);
    var parts := Split(rest, ';');
    SplitCons(' ', rest, ';');
    TrimLeadingWhitespace(' ', parts[0]);
  }

  /** The cookie string of one cookie is its pair. */
  lemma FindInSingle(c: Cookie, key: string)
    requires IsToken(c.name) && IsCookieValue(c.value) && IsToken(key)
    ensures FindCookie(Split(Pair(c), ';'), key + "=") == CookieValue([c], key)
  {
    PairMatch(c, key);
    SplitWithoutSeparator(Pair(c), ';');
  }

  lemma FindInEmpty(key: string)
    ensures FindCookie(Split(CookieString([]), ';'), key + "=") == None
  {
    assert CookieString([]) == "";
    assert Split("", ';') == [""];
    assert Trim("") == "";
    assert !StartsWith("", key + "=");
  }

  /** One step of the scan: the first pair, then the cookie string of the rest. */
  lemma FindInCons(jar: seq<Cookie>, key: string)
    requires |jar| >= 2 && WellFormedJar(jar) && IsToken(key)
    requires FindCookie(Split(CookieString(jar[1..]), ';'), key + "=") == CookieValue(jar[1..], key)
    ensures FindCookie(Split(CookieString(jar), ';'), key + "=") == CookieValue(jar, key)
  {
    var c := jar[0];
    var prefix := key + "=";
    var rest := CookieString(jar[1..]);
    assert IsToken(c.name) && IsCookieValue(c.value);
    PairMatch(c, key);
    FindAfterSeparator(Pair(c), rest, prefix);
    var found := FindCookie(Split(Pair(c) + "; " + rest, ';'), prefix);
    if c.name == key {
      assert found == Some(c.value);
    } else {
      assert found == CookieValue(jar[1..], key);
    }
    assert CookieString(jar) == Pair(c) + "; " + rest;
  }

  /** `getCookie` on the cookie string of a well-formed jar finds the value of the first cookie
      with exactly that name: a key never matches a longer name that starts with it. */
  lemma {:induction false} FindInCookieString(jar: seq<Cookie>, key: string)
    requires WellFormedJar(jar) && IsToken(key)
    ensures FindCookie(Split(CookieString(jar), ';'), key + "=") == CookieValue(jar, key)
    decreases |jar|
  {
    if jar == [] {
      FindInEmpty(key);
    } else if |jar| == 1 {
      FindInSingle(jar[0], key);
      assert jar == [jar[0]];
    } else {
      FindInCookieString(jar[1..], key);
      FindInCons(jar, key);
    }
  }

  /** `getCookie` on a well-formed jar: the decoded value of the cookie of that name, or null. */
  lemma GetCookieOfJar(jar: seq<Cookie>, key: string)
    requires WellFormedJar(jar) && IsToken(key)
    ensures GetCookieValue(CookieString(jar), key) ==
              match CookieValue(jar, key)
              case None => None
              case Some(raw) => Some(DecodeOrRaw(raw))
  {
    FindInCookieString(jar, key);
  }

  /** A key is not found in a cookie whose name merely starts with it. */
  lemma KeyIsNotANamePrefix()
    ensures GetCookieValue("ab=1", "a") == None
  {
    var jar := [Cookie("ab", "1")];
    assert CookieString(jar) == "ab=1";
    GetCookieOfJar(jar, "a");
    assert CookieValue(jar, "a") == None;
  }

  /** When decoding throws, `getCookie` returns the raw text. */
  lemma UndecodableValueIsRaw()
    ensures GetCookieValue("k=%", "k") == Some("%")
  {
    var jar := [Cookie("k", "%")];
    assert CookieString(jar) == "k=%";
    GetCookieOfJar(jar, "k");
    assert CookieValue(jar, "k") == Some("%");
    assert DecodeUriComponent("%") == None;
  }

  /* ---------- localStorage ---------- */

  /** `hasCookieConsent`: localStorage answers and holds exactly 'granted' under the consent key. */
  predicate Consent(local: map<string, string>, available: bool) {
    available && ConsentKey in local && local[ConsentKey] == "granted"
  }

  /** `getLS`: null when the key is absent or localStorage throws. */
  function LsGet(local: map<string, string>, available: bool, key: string): Option<string> {
    if available && key in local then Some(local[key]) else None
  }

  /** `setLS`: the write is lost when localStorage throws altogether or when only `setItem`
      throws (a full quota, a private mode that refuses writes); the error is swallowed. */
  function LsSet(local: map<string, string>, available: bool, writable: bool, key: string, value: string): map<string, string> {
    if available && writable then local[key := value] else local
  }

  /** `removeLS`. */
  function LsRemove(local: map<string, string>, available: bool, key: string): map<string, string> {
    if available then local - {key} else local
  }

  /* ---------- cookieStorage ---------- */

  /** What `cookieStorage.getItem(key)` returns. */
  function ItemOf(jar: seq<Cookie>, local: map<string, string>, available: bool, key: string): Option<string> {
    if Consent(local, available) then GetCookieValue(CookieString(jar), key) else LsGet(local, available, key)
  }

  /** The jar after `cookieStorage.setItem(key, value)`. */
  function JarAfterSetItem(jar: seq<Cookie>, local: map<string, string>, available: bool, key: string, value: string): seq<Cookie> {
    if Consent(local, available) then SetCookieIn(jar, key, EncodeUriComponent(value)) else jar
  }

  /** localStorage after `cookieStorage.setItem(key, value)`. */
  function LocalAfterSetItem(local: map<string, string>, available: bool, writable: bool, key: string, value: string): map<string, string> {
    if Consent(local, available) then LsRemove(local, available, key) else LsSet(local, available, writable, key, value)
  }

  /** The jar after a 'cookie-consent-changed' event with this detail. */
  function JarAfterConsentChange(jar: seq<Cookie>, local: map<string, string>, available: bool, detail: string): seq<Cookie> {
    if detail == "granted" then
      match LsGet(local, available, StoreKey)
      case Some(v) => SetCookieIn(jar, StoreKey, EncodeUriComponent(v))
      case None => jar
    else if detail == "denied" then RemoveCookieFrom(jar, StoreKey)
    else jar
  }

  /** localStorage after a 'cookie-consent-changed' event with this detail. */
  function LocalAfterConsentChange(local: map<string, string>, available: bool, detail: string): map<string, string> {
    if detail == "granted" && LsGet(local, available, StoreKey).Some? then LsRemove(local, available, StoreKey)
    else local
  }

  /** With consent, `setItem(k, v)` then `getItem(k)` gives v back from the cookie, no localStorage
      copy of k is left, and consent still holds (k not being the consent key). */
  lemma SetThenGetWithConsent(jar: seq<Cookie>, local: map<string, string>, available: bool, writable: bool, key: string, value: string)
    requires Consent(local, available) && WellFormedJar(jar) && IsToken(key) && key != ConsentKey
    ensures var jar' := JarAfterSetItem(jar, local, available, key, value);
            var local' := LocalAfterSetItem(local, available, writable, key, value);
            && Consent(local', available)
            && ItemOf(jar', local', available, key) == Some(value)
            && LsGet(local', available, key) == None
            && WellFormedJar(jar')
  {
    var encoded := EncodeUriComponent(value);
    EncodedIsCookieValue(value);
    SetCookieWellFormed(jar, key, encoded);
    GetCookieOfJar(SetCookieIn(jar, key, encoded), key);
    DecodeEncode(value);
  }

  /** Without consent, `setItem` leaves the cookies alone and `getItem` reads the value back from
      localStorage when the write lands; when `setItem` throws, `getItem` still gives what was
      there before (nothing at all when every access throws). */
  lemma SetThenGetWithoutConsent(jar: seq<Cookie>, local: map<string, string>, available: bool, writable: bool, key: string, value: string)
    requires !Consent(local, available) && key != ConsentKey
    ensures JarAfterSetItem(jar, local, available, key, value) == jar
    ensures var local' := LocalAfterSetItem(local, available, writable, key, value);
            && !Consent(local', available)
            && ItemOf(jar, local', available, key) ==
                 (if available && writable then Some(value) else ItemOf(jar, local, available, key))
            && (!available ==> ItemOf(jar, local', available, key) == None)
  {
  }

  /** With consent, `setItem` on the consent key itself deletes the consent from localStorage. */
  lemma SetConsentKeyRevokes(jar: seq<Cookie>, local: map<string, string>, available: bool, writable: bool, value: string)
    requires Consent(local, available)
    ensures !Consent(LocalAfterSetItem(local, available, writable, ConsentKey, value), available)
  {
  }

  /** After `removeItem(key)` neither store holds the key. */
  lemma RemoveItemClears(jar: seq<Cookie>, local: map<string, string>, available: bool, key: string)
    requires WellFormedJar(jar) && IsToken(key)
    ensures GetCookieValue(CookieString(RemoveCookieFrom(jar, key)), key) == None
    ensures LsGet(LsRemove(local, available, key), available, key) == None
  {
    RemoveCookieSpec(jar, key);
    FilterIsSubsequence(jar, (c: Cookie) => c.name != key);
    SubsequenceMembers(RemoveCookieFrom(jar, key), jar);
    var r := RemoveCookieFrom(jar, key);
    assert WellFormedJar(r) by {
      forall i | 0 <= i < |r| ensures IsToken(r[i].name) && IsCookieValue(r[i].value) {
        assert r[i] in jar;
      }
    }
    GetCookieOfJar(r, key);
  }

  /** A 'granted' event, once consent holds, moves the persisted store from localStorage into a
      cookie: `getItem` then reads the same value from the cookie and no localStorage copy is left.
      Without a localStorage value the event changes nothing. */
  lemma GrantedMigrationKeepsStore(jar: seq<Cookie>, local: map<string, string>, available: bool)
    requires Consent(local, available) && WellFormedJar(jar)
    ensures var jar' := JarAfterConsentChange(jar, local, available, "granted");
            var local' := LocalAfterConsentChange(local, available, "granted");
            && Consent(local', available)
            && (LsGet(local, available, StoreKey).Some? ==>
                  ItemOf(jar', local', available, StoreKey) == LsGet(local, available, StoreKey)
                  && LsGet(local', available, StoreKey) == None)
            && (LsGet(local, available, StoreKey).None? ==> jar' == jar && local' == local)
  {
    match LsGet(local, available, StoreKey)
    case None =>
    case Some(v) =>
      SetThenGetWithConsent(jar, local, available, true, StoreKey, v);
  }

  /** A 'denied' event deletes the persisted-store cookie. */
  lemma DeniedDeletesStoreCookie(jar: seq<Cookie>, local: map<string, string>, available: bool)
    requires WellFormedJar(jar)
    ensures GetCookieValue(CookieString(JarAfterConsentChange(jar, local, available, "denied")), StoreKey) == None
    ensures LocalAfterConsentChange(local, available, "denied") == local
  {
    assert JarAfterConsentChange(jar, local, available, "denied") == RemoveCookieFrom(jar, StoreKey);
    RemoveItemClears(jar, local, available, StoreKey);
  }

  /** The loop of `getCookie`: the first part that, trimmed, starts with `prefix`, and what
      follows the prefix there. */
  method ScanParts(parts: seq<string>, prefix: string) returns (r: Option<string>)
    ensures r == FindCookie(parts, prefix)
  {
    var i := 0;
    while i < |parts|
      invariant 0 <= i <= |parts|
      invariant FindCookie(parts[i..], prefix) == FindCookie(parts, prefix)
    {
      var cookie := Trim(parts[i]);
      assert parts[i..][1..] == parts[i + 1..];
      if StartsWith(cookie, prefix) {
        return Some(cookie[|prefix|..]);
      }
      i := i + 1;
    }
    return None;
  }

  /** The browser's two stores as the module sees them. */
  class BrowserStorage {
    var jar: seq<Cookie>
    var local: map<string, string>
    /** False when every localStorage access throws. */
    const localAvailable: bool
    /** False when `localStorage.setItem` throws while reads and removals still work. */
    const localWritable: bool

    constructor (jar0: seq<Cookie>, local0: map<string, string>, available: bool, writable: bool)
      ensures jar == jar0 && local == local0 && localAvailable == available && localWritable == writable
    {
      jar := jar0;
      local := local0;
      localAvailable := available;
      localWritable := writable;
    }

    predicate HasCookieConsent()
      reads this
    {
      Consent(local, localAvailable)
    }

    /** `getCookie`: scan the ';'-separated parts of `document.cookie` for the first one that,
        trimmed, starts with `key=`, and decode what follows, keeping the raw text when decoding
        throws. */
    method GetCookie(key: string) returns (r: Option<string>)
      ensures r == GetCookieValue(CookieString(jar), key)
    {
      var found := ScanParts(Split(CookieString(jar), ';'), key + "=");
      if found.None? {
        return None;
      }
      var raw := found.value;
      var decoded := DecodeUriComponent(raw);
      if decoded.Some? {
        return Some(decoded.value);
      }
      return Some(raw);
    }

    /** `setCookie(key, value)`. */
    method SetCookie(key: string, value: string)
      modifies this`jar
      ensures jar == SetCookieIn(old(jar), key, EncodeUriComponent(value))
    {
      jar := SetCookieIn(jar, key, EncodeUriComponent(value));
    }

    /** `removeCookie(key)`. */
    method RemoveCookie(key: string)
      modifies this`jar
      ensures jar == RemoveCookieFrom(old(jar), key)
    {
      jar := RemoveCookieFrom(jar, key);
    }

    /** `setLS(key, value)`. */
    method SetLocal(key: string, value: string)
      modifies this`local
      ensures local == LsSet(old(local), localAvailable, localWritable, key, value)
    {
      if localAvailable && localWritable {
        local := local[key := value];
      }
    }

    /** `removeLS(key)`. */
    method RemoveLocal(key: string)
      modifies this`local
      ensures local == LsRemove(old(local), localAvailable, key)
    {
      if localAvailable {
        local := local - {key};
      }
    }

    /** `cookieStorage.getItem`. */
    method GetItem(key: string) returns (r: Option<string>)
      ensures r == ItemOf(jar, local, localAvailable, key)
    {
      if HasCookieConsent() {
        r := GetCookie(key);
      } else {
        r := LsGet(local, localAvailable, key);
      }
    }

    /** `cookieStorage.setItem`: with consent the cookie is written and the localStorage copy
        removed; without, only localStorage is written. */
    method SetItem(key: string, value: string)
      modifies this`jar, this`local
      ensures jar == JarAfterSetItem(old(jar), old(local), localAvailable, key, value)
      ensures local == LocalAfterSetItem(old(local), localAvailable, localWritable, key, value)
    {
      if HasCookieConsent() {
        SetCookie(key, value);
        RemoveLocal(key);
      } else {
        SetLocal(key, value);
      }
    }

    /** `cookieStorage.removeItem`: both stores lose the key. */
    method RemoveItem(key: string)
      modifies this`jar, this`local
      ensures jar == RemoveCookieFrom(old(jar), key)
      ensures local == LsRemove(old(local), localAvailable, key)
    {
      RemoveCookie(key);
      RemoveLocal(key);
    }

    /** The 'cookie-consent-changed' listener. */
    method OnConsentChanged(detail: string)
      modifies this`jar, this`local
      ensures jar == JarAfterConsentChange(old(jar), old(local), localAvailable, detail)
      ensures local == LocalAfterConsentChange(old(local), localAvailable, detail)
    {
      if detail == "granted" {
        var v := LsGet(local, localAvailable, StoreKey);
        if v.Some? {
          SetCookie(StoreKey, v.value);
          RemoveLocal(StoreKey);
        }
      } else if detail == "denied" {
        RemoveCookie(StoreKey);
      }
    }
  }
}
