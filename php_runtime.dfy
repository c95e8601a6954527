/**
 * The pieces of the PHP runtime the backend scripts rely on: the response
 * state built by `header()` and `http_response_code()`, the values produced
 * by `json_decode(..., true)`, and the string built-ins `empty`, `trim`,
 * `strtolower`, `dirname` and the `??` operator.
 */
module PhpRuntime {
  import opened Wrappers
  import opened Strings

  // ---------------------------------------------------------------------
  // Response state

  datatype Header = Header(name: string, value: string)

  /** JSON values as `json_decode($text, true)` returns them (objects become associative arrays). */
  datatype JsonValue =
    | JNull
    | JBool(b: bool)
    | JNumber(n: real)
    | JString(s: string)
    | JArray(items: seq<JsonValue>)
    | JObject(fields: map<string, JsonValue>)

  /** What a script echoes: raw text, or a value passed to `json_encode`. */
  datatype Body = Raw(text: string) | Json(value: JsonValue)

  const JsonType := "application/json"

  /** The status a PHP reply has until the script sets one. */
  const DefaultStatus := 200

  /** `http_response_code($code)`: a non-zero code becomes the status; 0 only reads it, leaving `current`. */
  function ResponseCode(current: int, code: int): int {
    if code != 0 then code else current
  }

  /** `json_encode(['error' => $message])`, the error body every PHP endpoint echoes. */
  function ErrorBody(message: string): Body {
    Json(JObject(map["error" := JString(message)]))
  }

  /** The response a script leaves behind: the status code, the header list and the output. */
  datatype Reply = Reply(status: int, headers: seq<Header>, body: Body)

  /** Header names are compared without regard to ASCII case. */
  predicate SameName(a: string, b: string)
    decreases |a|
  {
    |a| == |b| && (a == [] || (LowerChar(a[0]) == LowerChar(b[0]) && SameName(a[1..], b[1..])))
  }

  /** Names of different lengths, or with different letters at one position, are different names. */
  lemma {:induction false} NamesDiffer(a: string, b: string, k: nat)
    requires |a| != |b| || (k < |a| && k < |b| && LowerChar(a[k]) != LowerChar(b[k]))
    ensures !SameName(a, b)
    decreases k
  {
    if |a| == |b| && k > 0 && LowerChar(a[0]) == LowerChar(b[0]) {
      NamesDiffer(a[1..], b[1..], k - 1);
    }
  }

  lemma {:induction false} SameNameIsLowerEquality(a: string, b: string)
    ensures SameName(a, b) <==> AsciiLower(a) == AsciiLower(b)
    decreases |a|
  {
    if |a| == |b| && a != [] {
      SameNameIsLowerEquality(a[1..], b[1..]);
      assert AsciiLower(a) == [LowerChar(a[0])] + AsciiLower(a[1..]);
      assert AsciiLower(b) == [LowerChar(b[0])] + AsciiLower(b[1..]);
      if AsciiLower(a) == AsciiLower(b) {
        assert AsciiLower(a)[1..] == AsciiLower(a[1..]);
        assert AsciiLower(b)[1..] == AsciiLower(b[1..]);
      }
    }
  }

  /** Comparing names without regard to case is an equivalence: reflexive, symmetric and transitive. */
  lemma SameNameEquivalence(a: string, b: string, c: string)
    ensures SameName(a, a)
    ensures SameName(a, b) ==> SameName(b, a)
    ensures SameName(a, b) && SameName(b, c) ==> SameName(a, c)
  {
    SameNameIsLowerEquality(a, a);
    SameNameIsLowerEquality(a, b);
    SameNameIsLowerEquality(b, a);
    SameNameIsLowerEquality(b, c);
    SameNameIsLowerEquality(a, c);
  }

  function RemoveFirstNamed(hs: seq<Header>, name: string): (r: seq<Header>)
    ensures |r| <= |hs|
    ensures forall h :: h in r ==> h in hs
  {
    if hs == [] then []
    else if SameName(hs[0].name, name) then hs[1..]
    else [hs[0]] + RemoveFirstNamed(hs[1..], name)
  }

  /** `header("Name: value")`: an earlier header of the same name is replaced; the new one is appended. */
  function SetHeader(hs: seq<Header>, h: Header): (r: seq<Header>)
    ensures |r| > 0 && r[|r| - 1] == h
  {
    RemoveFirstNamed(hs, h.name) + [h]
  }

  /** The value of the first header called `name`, if any. */
  function HeaderValue(hs: seq<Header>, name: string): Option<string> {
    if hs == [] then None
    else if SameName(hs[0].name, name) then Some(hs[0].value)
    else HeaderValue(hs[1..], name)
  }

  predicate NoneNamed(hs: seq<Header>, name: string) {
    forall k :: 0 <= k < |hs| ==> !SameName(hs[k].name, name)
  }

  /** No two headers of the list share a name, as is the case for a list built by `header()` alone. */
  predicate DistinctNames(hs: seq<Header>) {
    forall i, j :: 0 <= i < j < |hs| ==> !SameName(hs[i].name, hs[j].name)
  }

  lemma RemoveAbsent(hs: seq<Header>, name: string)
    requires NoneNamed(hs, name)
    ensures RemoveFirstNamed(hs, name) == hs
  {
    if hs != [] {
      RemoveAbsent(hs[1..], name);
    }
  }

  lemma {:induction false} RemoveDistinct(hs: seq<Header>, name: string)
    requires DistinctNames(hs)
    ensures DistinctNames(RemoveFirstNamed(hs, name))
    ensures NoneNamed(RemoveFirstNamed(hs, name), name)
    ensures forall n :: !SameName(n, name) ==> HeaderValue(RemoveFirstNamed(hs, name), n) == HeaderValue(hs, n)
    decreases |hs|
  {
    if hs != [] {
      if SameName(hs[0].name, name) {
        forall k | 0 <= k < |hs[1..]| ensures !SameName(hs[1..][k].name, name) {
          assert hs[1..][k] == hs[k + 1];
          assert !SameName(hs[0].name, hs[k + 1].name);
          SameNameEquivalence(hs[k + 1].name, name, name);
          SameNameEquivalence(hs[0].name, name, hs[k + 1].name);
        }
        forall n | !SameName(n, name) ensures HeaderValue(hs[1..], n) == HeaderValue(hs, n) {
          SameNameEquivalence(n, hs[0].name, name);
          SameNameEquivalence(hs[0].name, n, name);
        }
      } else {
        RemoveDistinct(hs[1..], name);
        var tail := RemoveFirstNamed(hs[1..], name);
        var r := [hs[0]] + tail;
        forall j | 0 <= j < |tail| ensures !SameName(hs[0].name, tail[j].name) {
          assert tail[j] in hs[1..];
        }
        assert r[1..] == tail;
      }
    }
  }

  lemma ValueOfAppended(hs: seq<Header>, h: Header, n: string)
    ensures HeaderValue(hs + [h], n) == if HeaderValue(hs, n).Some? then HeaderValue(hs, n)
                                       else if SameName(h.name, n) then Some(h.value) else None
  {
    if hs != [] {
      assert (hs + [h])[1..] == hs[1..] + [h];
      ValueOfAppended(hs[1..], h, n);
    }
  }

  lemma NoneNamedValue(hs: seq<Header>, n: string)
    requires NoneNamed(hs, n)
    ensures HeaderValue(hs, n) == None
  {
    if hs != [] {
      NoneNamedValue(hs[1..], n);
    }
  }

  /**
   * After `header()` the header has exactly the new value, every other
   * header keeps its value, and names stay distinct.
   */
  lemma SetHeaderEffect(hs: seq<Header>, h: Header)
    requires DistinctNames(hs)
    ensures DistinctNames(SetHeader(hs, h))
    ensures HeaderValue(SetHeader(hs, h), h.name) == Some(h.value)
    ensures forall n :: !SameName(n, h.name) ==> HeaderValue(SetHeader(hs, h), n) == HeaderValue(hs, n)
  {
    var rest := RemoveFirstNamed(hs, h.name);
    RemoveDistinct(hs, h.name);
    ValueOfAppended(rest, h, h.name);
    NoneNamedValue(rest, h.name);
    SameNameEquivalence(h.name, h.name, h.name);
    forall n | !SameName(n, h.name) ensures HeaderValue(SetHeader(hs, h), n) == HeaderValue(hs, n) {
      ValueOfAppended(rest, h, n);
      SameNameEquivalence(h.name, n, n);
    }
  }

  /** `header_remove(name)` followed by `header(h)` for another name: `name` is gone, `h` is set, the rest is kept. */
  lemma RemoveThenSet(hs: seq<Header>, name: string, h: Header)
    requires DistinctNames(hs) && !SameName(name, h.name)
    ensures DistinctNames(SetHeader(RemoveFirstNamed(hs, name), h))
    ensures HeaderValue(SetHeader(RemoveFirstNamed(hs, name), h), name) == None
    ensures HeaderValue(SetHeader(RemoveFirstNamed(hs, name), h), h.name) == Some(h.value)
    ensures forall n :: !SameName(n, name) && !SameName(n, h.name) ==>
      HeaderValue(SetHeader(RemoveFirstNamed(hs, name), h), n) == HeaderValue(hs, n)
  {
    var rest := RemoveFirstNamed(hs, name);
    RemoveDistinct(hs, name);
    SetHeaderEffect(rest, h);
    NoneNamedValue(rest, name);
  }

  /** `header()` with a name not yet present just appends. */
  lemma SetHeaderFresh(hs: seq<Header>, h: Header)
    requires NoneNamed(hs, h.name)
    ensures SetHeader(hs, h) == hs + [h]
  {
    RemoveAbsent(hs, h.name);
  }

  /** Four `header()` calls with pairwise different names build exactly the list of the four headers. */
  lemma FourFreshHeaders(a: Header, b: Header, c: Header, d: Header)
    requires !SameName(a.name, b.name) && !SameName(a.name, c.name) && !SameName(a.name, d.name)
    requires !SameName(b.name, c.name) && !SameName(b.name, d.name) && !SameName(c.name, d.name)
    ensures SetHeader(SetHeader(SetHeader(SetHeader([], a), b), c), d) == [a, b, c, d]
    ensures DistinctNames([a, b, c, d])
  {
    SetHeaderFresh([], a);
    assert SetHeader([], a) == [a];
    assert NoneNamed([a], b.name);
    SetHeaderFresh([a], b);
    assert SetHeader([a], b) == [a, b];
    assert NoneNamed([a, b], c.name);
    SetHeaderFresh([a, b], c);
    assert SetHeader([a, b], c) == [a, b, c];
    assert NoneNamed([a, b, c], d.name);
    SetHeaderFresh([a, b, c], d);
    assert SetHeader([a, b, c], d) == [a, b, c, d];
  }

  // ---------------------------------------------------------------------
  // Truthiness, trimming, dirname

  /** PHP `empty()` on a string: true for "" and for "0". */
  predicate PhpEmpty(s: string) {
    s == "" || s == "0"
  }

  /** The characters PHP `trim` strips by default: space, tab, LF, CR, NUL and vertical tab. */
  predicate IsPhpWhitespace(c: char) {
    c == ' ' || c == '\t' || c == '\n' || c == '\r' || c == '\0' || c == '\U{000B}'
  }

  function PhpTrim(s: string): string {
    Trim(s, IsPhpWhitespace)
  }

  /** Drops trailing characters while they are slashes (`slash`) or non-slashes (`!slash`). */
  function StripTrailing(s: string, slash: bool): (r: string)
    ensures |r| <= |s| && r == s[..|r|]
    ensures r == [] || (r[|r| - 1] == '/') != slash
    ensures forall k :: |r| <= k < |s| ==> (s[k] == '/') == slash
    decreases |s|
  {
    if s != [] && (s[|s| - 1] == '/') == slash then StripTrailing(s[..|s| - 1], slash) else s
  }

  /**
   * PHP `dirname` with a single level on a system whose separator is `/`:
   * trailing slashes go, then the last component, then the slashes before it.
   */
  function Dirname(path: string): string {
    if path == [] then ""
    else
      var noTrailing := StripTrailing(path, true);
      if noTrailing == [] then "/"
      else
        var noFile := StripTrailing(noTrailing, false);
        if noFile == [] then "."
        else
          var dir := StripTrailing(noFile, true);
          if dir == [] then "/" else dir
  }

  /**
   * The directory of `dir/file` is `dir`, and that of `/file` is `/`,
   * for a last component with no slash and a directory not ending in one.
   */
  lemma DirnameOfFile(dir: string, file: string)
    requires file != [] && '/' !in file
    requires dir == [] || dir[|dir| - 1] != '/'
    ensures Dirname(dir + "/" + file) == if dir == [] then "/" else dir
  {
    var p := dir + "/" + file;
    assert p[|dir|] == '/';
    assert forall k :: |dir| < k < |p| ==> p[k] == file[k - |dir| - 1];
    var a := StripTrailing(p, true);
    assert p[|p| - 1] == file[|file| - 1];
    assert a == p;
    var b := StripTrailing(a, false);
    assert b == dir + "/";
    var c := StripTrailing(b, true);
    if dir == [] {
      assert |c| == 0;
    } else {
      assert c == dir;
    }
  }

  /** A path with no slash at all has `.` as its directory. */
  lemma DirnameOfBareName(path: string)
    requires path != [] && '/' !in path
    ensures Dirname(path) == "."
  {
    var a := StripTrailing(path, true);
    assert a == path by {
      assert path[|path| - 1] in path;
    }
    var b := StripTrailing(a, false);
    assert b == [] by {
      assert forall k :: 0 <= k < |path| ==> path[k] in path;
    }
  }

  // ---------------------------------------------------------------------
  // Array access with `??`

  /** `$doc[$key]` for a decoded document; only an associative array has keys. */
  function Lookup(doc: JsonValue, key: string): Option<JsonValue> {
    if doc.JObject? && key in doc.fields then Some(doc.fields[key]) else None
  }

  /** `$doc[$key] ?? $default`: the default when the key is missing or holds null. */
  function Coalesce(doc: JsonValue, key: string, default: JsonValue): (r: JsonValue)
    ensures Lookup(doc, key).None? || Lookup(doc, key) == Some(JNull) ==> r == default
    ensures Lookup(doc, key).Some? && Lookup(doc, key) != Some(JNull) ==> r == Lookup(doc, key).value
  {
    match Lookup(doc, key)
    case Some(v) => if v == JNull then default else v
    case None => default
  }

  /** A string value or PHP's `null`, as it appears inside `"...$x..."` (null interpolates as ""). */
  function Interpolate(s: Option<string>): string {
    s.GetOr("")
  }
}
