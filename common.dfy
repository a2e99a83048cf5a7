/** Helpers shared by the admin pages: nullable values, the JavaScript string
    operations the pages call (trim, toLowerCase, includes, startsWith), the
    two list-filtering idioms, and `parseInt(x) || d`. */
module Common {

  /** A nullable value: `None` stands for `null` (or `undefined`). */
  datatype Option<+T> = None | Some(value: T) {
    /** `x ?? d` */
    function GetOr(default: T): T {
      match this
      case Some(v) => v
      case None => default
    }
  }

  // ---------------------------------------------------------------------------
  // Characters

  /** The characters JavaScript's `\s` and `String.prototype.trim` treat as
      white space: the WhiteSpace and LineTerminator productions. */
  predicate IsWhitespace(c: char) {
    var n := c as int;
    (0x09 <= n <= 0x0D) || n == 0x20 || n == 0xA0 || n == 0x1680 ||
    (0x2000 <= n <= 0x200A) || n == 0x2028 || n == 0x2029 || n == 0x202F ||
    n == 0x205F || n == 0x3000 || n == 0xFEFF
  }

  predicate IsUpperAscii(c: char) { 'A' <= c <= 'Z' }

  predicate IsLowerAscii(c: char) { 'a' <= c <= 'z' }

  predicate IsDigit(c: char) { '0' <= c <= '9' }

  /** The class `\w` of a JavaScript regular expression without the `u` flag. */
  predicate IsWordChar(c: char) { IsUpperAscii(c) || IsLowerAscii(c) || IsDigit(c) || c == '_' }

  /** `toLowerCase` on one character, for the ASCII letters. */
  function LowerChar(c: char): (r: char)
    ensures IsUpperAscii(c) ==> IsLowerAscii(r) && r as int == c as int + 32
    ensures !IsUpperAscii(c) ==> r == c
  {
    if IsUpperAscii(c) then (c as int + 32) as char else c
  }

  /** `s.toLowerCase()`, with ASCII case mapping. */
  function ToLower(s: string): (r: string)
    ensures |r| == |s|
    ensures forall i :: 0 <= i < |s| ==> r[i] == LowerChar(s[i])
  {
    if s == [] then [] else [LowerChar(s[0])] + ToLower(s[1..])
  }

  // ---------------------------------------------------------------------------
  // Trimming

  /** The first index at or after `from` whose character is not white
      space, or `|s|`. */
  function SkipLeading(s: string, from: nat): (n: nat)
    requires from <= |s|
    ensures from <= n <= |s|
    ensures forall i :: from <= i < n ==> IsWhitespace(s[i])
    ensures n < |s| ==> !IsWhitespace(s[n])
    decreases |s| - from
  {
    if from < |s| && IsWhitespace(s[from]) then SkipLeading(s, from + 1) else from
  }

  /** The index just after the last character of `s[lo..hi]` that is not
      white space, or `lo`. */
  function SkipTrailing(s: string, lo: nat, hi: nat): (n: nat)
    requires lo <= hi <= |s|
    ensures lo <= n <= hi
    ensures forall i :: n <= i < hi ==> IsWhitespace(s[i])
    ensures n > lo ==> !IsWhitespace(s[n - 1])
    decreases hi
  {
    if hi > lo && IsWhitespace(s[hi - 1]) then SkipTrailing(s, lo, hi - 1) else hi
  }

  /** `s.trim()`: what is left between the leading and the trailing white
      space; it neither begins nor ends with white space. */
  function Trim(s: string): (r: string)
    ensures |r| <= |s|
    ensures r == [] || (!IsWhitespace(r[0]) && !IsWhitespace(r[|r| - 1]))
  {
    var start := SkipLeading(s, 0);
    s[start..SkipTrailing(s, start, |s|)]
  }

  /** Every character of `s` is white space. */
  predicate AllWhitespace(s: string) {
    forall i :: 0 <= i < |s| ==> IsWhitespace(s[i])
  }

  /** `needle` sits in `hay` at position `i`. */
  predicate OccursAt(hay: string, needle: string, i: int) {
    0 <= i <= |hay| - |needle| && hay[i..i + |needle|] == needle
  }

  /** What `trim` removes is white space, and only from the two ends: the
      result sits in `s` with nothing but white space before and after it. */
  lemma {:induction false} TrimSpec(s: string)
    ensures exists a ::
      && OccursAt(s, Trim(s), a)
      && (forall i :: 0 <= i < a ==> IsWhitespace(s[i]))
      && (forall i :: a + |Trim(s)| <= i < |s| ==> IsWhitespace(s[i]))
  {
    var start := SkipLeading(s, 0);
    var end := SkipTrailing(s, start, |s|);
    assert Trim(s) == s[start..end];
    assert OccursAt(s, Trim(s), start);
  }

  /** `!s.trim()`: the string is empty or all white space. */
  predicate IsBlank(s: string) {
    Trim(s) == ""
  }

  lemma {:induction false} BlankIffAllWhitespace(s: string)
    ensures IsBlank(s) <==> AllWhitespace(s)
  {
    var start := SkipLeading(s, 0);
    var end := SkipTrailing(s, start, |s|);
    if start < |s| {
      assert !IsWhitespace(s[start]);
      assert end != start;
    }
  }

  /** Trimming twice is trimming once. */
  lemma {:induction false} TrimIdempotent(s: string)
    ensures Trim(Trim(s)) == Trim(s)
  {
    var r := Trim(s);
    if r != [] {
      assert SkipLeading(r, 0) == 0;
      assert SkipTrailing(r, 0, |r|) == |r|;
      assert r[0..|r|] == r;
    }
  }

  /** A text without white space is its own trim. */
  lemma {:induction false} TrimNoWhitespace(s: string)
    requires forall i :: 0 <= i < |s| ==> !IsWhitespace(s[i])
    ensures Trim(s) == s
  {
    if s != [] {
      assert SkipLeading(s, 0) == 0;
      assert SkipTrailing(s, 0, |s|) == |s|;
      assert s[0..|s|] == s;
    }
  }

  // ---------------------------------------------------------------------------
  // Substrings

  predicate StartsWith(s: string, prefix: string) {
    |prefix| <= |s| && s[..|prefix|] == prefix
  }

  /** `hay.includes(needle)` */
  predicate Contains(hay: string, needle: string)
    decreases |hay|
  {
    StartsWith(hay, needle) || (hay != [] && Contains(hay[1..], needle))
  }

  /** `includes` holds exactly when the needle occurs at some position. */
  lemma {:induction false} ContainsIffOccurs(hay: string, needle: string)
    ensures Contains(hay, needle) <==> exists i :: OccursAt(hay, needle, i)
    decreases |hay|
  {
    if StartsWith(hay, needle) {
      assert OccursAt(hay, needle, 0);
    } else if hay == [] {
    } else {
      ContainsIffOccurs(hay[1..], needle);
      if exists i :: OccursAt(hay, needle, i) {
        var i :| OccursAt(hay, needle, i);
        assert i != 0;
        assert hay[1..][i - 1..i - 1 + |needle|] == hay[i..i + |needle|];
        assert OccursAt(hay[1..], needle, i - 1);
      }
      if Contains(hay[1..], needle) {
        var j :| OccursAt(hay[1..], needle, j);
        assert hay[1..][j..j + |needle|] == hay[j + 1..j + 1 + |needle|];
        assert OccursAt(hay, needle, j + 1);
      }
    }
  }

  // ---------------------------------------------------------------------------
  // Lists

  /** Concatenation regroups freely. */
  lemma ConcatAssoc<T>(x: seq<T>, y: seq<T>, z: seq<T>)
    ensures x + (y + z) == (x + y) + z
  {
  }

  /** `s.filter((_, i) => i !== index)` */
  function WithoutIndex<T>(s: seq<T>, index: int): (r: seq<T>)
    ensures 0 <= index < |s| ==> r == s[..index] + s[index + 1..]
    ensures !(0 <= index < |s|) ==> r == s
    decreases |s|
  {
    if s == [] then []
    else (if index == 0 then [] else [s[0]]) + WithoutIndex(s[1..], index - 1)
  }

  /** `s.filter(x => x !== v)` */
  function RemoveAll<T(==)>(s: seq<T>, v: T): (r: seq<T>)
    ensures v !in r
    ensures forall i :: 0 <= i < |s| && s[i] != v ==> s[i] in r
    ensures forall i :: 0 <= i < |r| ==> r[i] in s
    ensures |r| <= |s|
    ensures v !in s ==> r == s
  {
    if s == [] then []
    else (if s[0] == v then [] else [s[0]]) + RemoveAll(s[1..], v)
  }

  /** Filtering distributes over concatenation, which is what "keeps the
      relative order of the other elements" means. */
  lemma {:induction false} RemoveAllAppend<T>(a: seq<T>, b: seq<T>, v: T)
    ensures RemoveAll(a + b, v) == RemoveAll(a, v) + RemoveAll(b, v)
  {
    if a == [] {
      assert a + b == b;
    } else {
      var head := if a[0] == v then [] else [a[0]];
      var ab := a + b;
      assert ab[0] == a[0] && ab[1..] == a[1..] + b;
      assert RemoveAll(ab, v) == head + RemoveAll(a[1..] + b, v);
      RemoveAllAppend(a[1..], b, v);
      ConcatAssoc(head, RemoveAll(a[1..], v), RemoveAll(b, v));
    }
  }

  /** The add-to-list handlers of the project and experience forms: a blank
      input is ignored, otherwise its trimmed text goes at the end. */
  function AppendTrimmed(list: seq<string>, input: string): (r: seq<string>)
    ensures IsBlank(input) ==> r == list
    ensures !IsBlank(input) ==> |r| == |list| + 1 && r[..|list|] == list
    ensures !IsBlank(input) ==> r[|list|] == Trim(input) && r[|list|] != ""
  {
    if IsBlank(input) then list else list + [Trim(input)]
  }

  // ---------------------------------------------------------------------------
  // Flags

  /** The value a publish or feature button sends: `!(flag || false)`, so a
      null flag counts as off. */
  function ToggleRequest(current: Option<bool>): (r: bool)
    ensures r <==> current != Some(true)
  {
    !current.GetOr(false)
  }

  /** The stored flag once a press has gone through. */
  function Pressed(current: Option<bool>): Option<bool> {
    Some(ToggleRequest(current))
  }

  /** A press flips the flag the table shows (`flag || false`); two presses
      give back a stored flag, but turn a null one into `false`. */
  lemma {:induction false} PressTwice(current: Option<bool>)
    ensures Pressed(current).GetOr(false) == !current.GetOr(false)
    ensures Pressed(Pressed(current)) == if current.None? then Some(false) else current
  {
    match current
    case None =>
    case Some(b) => assert Pressed(Some(b)) == Some(!b);
  }

  // ---------------------------------------------------------------------------
  // Numbers

  /** `parseInt(text) || d`, where `parsed` is what `parseInt` returned
      (`None` for `NaN`): `NaN` and `0` are falsy and give `d`. */
  function NumberOr(parsed: Option<int>, d: int): (r: int)
    ensures r == d || (parsed == Some(r) && r != 0)
    ensures parsed.Some? && parsed.value != 0 ==> r == parsed.value
    ensures d != 0 ==> r != 0
  {
    match parsed
    case Some(n) => if n != 0 then n else d
    case None => d
  }
}
