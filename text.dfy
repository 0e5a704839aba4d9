/**
  Character and string primitives shared by the model: Python's `str.lower`,
  `str.upper`, `str.title`, `str.strip`, `str.split`, `sep.join` and the `in`
  substring test. Case mapping covers ASCII letters only; whitespace is the set
  of characters Python's `str.isspace` accepts.
 */
module Text {

  predicate IsUpper(c: char) { 'A' <= c <= 'Z' }
  predicate IsLowerLetter(c: char) { 'a' <= c <= 'z' }
  predicate IsLetter(c: char) { IsUpper(c) || IsLowerLetter(c) }

  function LowerChar(c: char): char {
    if IsUpper(c) then (c as int + 32) as char else c
  }

  function UpperChar(c: char): char {
    if IsLowerLetter(c) then (c as int - 32) as char else c
  }

  /** The characters for which Python's `str.isspace()` is true. */
  predicate IsSpace(c: char) {
    var n := c as int;
    (9 <= n <= 13) || (28 <= n <= 32) || n == 0x85 || n == 0xA0 || n == 0x1680
    || (0x2000 <= n <= 0x200A) || n == 0x2028 || n == 0x2029 || n == 0x202F
    || n == 0x205F || n == 0x3000
  }

  /** `s.lower()` */
  function Lower(s: string): (r: string)
    ensures |r| == |s|
  {
    seq(|s|, i requires 0 <= i < |s| => LowerChar(s[i]))
  }

  /** `s.title()`: a letter is upper-cased when the character before it is not a letter
      and lower-cased otherwise; every other character is kept. */
  function Title(s: string): string {
    TitleAfter(s, false)
  }

  function TitleAfter(s: string, previousIsCased: bool): (r: string)
    ensures |r| == |s|
    decreases |s|
  {
    if s == [] then []
    else
      var c := s[0];
      var d := if !IsLetter(c) then c else if previousIsCased then LowerChar(c) else UpperChar(c);
      [d] + TitleAfter(s[1..], IsLetter(c))
  }

  function TrimLeft(s: string): (r: string)
    decreases |s|
  {
    if s != [] && IsSpace(s[0]) then TrimLeft(s[1..]) else s
  }

  function TrimRight(s: string): (r: string)
    decreases |s|
  {
    if s != [] && IsSpace(s[|s| - 1]) then TrimRight(s[..|s| - 1]) else s
  }

  /** `s.strip()` */
  function Strip(s: string): string {
    TrimRight(TrimLeft(s))
  }

  /** Neither end of `s` is whitespace. */
  predicate IsStripped(s: string) {
    s == [] || (!IsSpace(s[0]) && !IsSpace(s[|s| - 1]))
  }

  /** `sep.join(parts)` */
  function Join(parts: seq<string>, sep: string): string
    decreases |parts|
  {
    if parts == [] then []
    else if |parts| == 1 then parts[0]
    else parts[0] + sep + Join(parts[1..], sep)
  }

  /** `s.split(sep)` for a one-character separator: always at least one piece. */
  function Split(s: string, sep: char): (r: seq<string>)
    ensures |r| >= 1
    decreases |s|
  {
    if s == [] then [[]]
    else
      var rest := Split(s[1..], sep);
      if s[0] == sep then [[]] + rest else [[s[0]] + rest[0]] + rest[1..]
  }

  /** `pat in text` */
  predicate IsSubstring(pat: string, text: string) {
    exists i | 0 <= i <= |text| - |pat| :: OccursAt(pat, text, i)
  }

  predicate OccursAt(pat: string, text: string, i: int) {
    0 <= i <= |text| - |pat| && text[i..i + |pat|] == pat
  }

  /** The set of lower-cased forms of a list of strings: `{s.lower() for s in xs}`. */
  function LowerSet(xs: seq<string>): set<string> {
    set s | s in xs :: Lower(s)
  }

  lemma LowerIdempotent(s: string)
    ensures Lower(Lower(s)) == Lower(s)
  {
  }

  lemma LowerAppend(a: string, b: string)
    ensures Lower(a + b) == Lower(a) + Lower(b)
  {
    assert Lower(a + b) == Lower(a) + Lower(b);
  }

  lemma LowerSlice(s: string, i: int, j: int)
    requires 0 <= i <= j <= |s|
    ensures Lower(s[i..j]) == Lower(s)[i..j]
  {
  }

  lemma {:induction false} TrimLeftFacts(s: string)
    ensures |TrimLeft(s)| <= |s|
    ensures TrimLeft(s) == s[|s| - |TrimLeft(s)|..]
    ensures TrimLeft(s) == [] || !IsSpace(TrimLeft(s)[0])
    ensures forall i :: 0 <= i < |s| - |TrimLeft(s)| ==> IsSpace(s[i])
    decreases |s|
  {
    if s != [] && IsSpace(s[0]) {
      TrimLeftFacts(s[1..]);
    }
  }

  lemma {:induction false} TrimRightFacts(s: string)
    ensures |TrimRight(s)| <= |s|
    ensures TrimRight(s) == s[..|TrimRight(s)|]
    ensures TrimRight(s) == [] || !IsSpace(TrimRight(s)[|TrimRight(s)| - 1])
    ensures forall i :: |TrimRight(s)| <= i < |s| ==> IsSpace(s[i])
    decreases |s|
  {
    if s != [] && IsSpace(s[|s| - 1]) {
      TrimRightFacts(s[..|s| - 1]);
    }
  }

  lemma {:induction false} TrimLeftOfStripped(s: string)
    requires s == [] || !IsSpace(s[0])
    ensures TrimLeft(s) == s
  {
  }

  lemma {:induction false} TrimRightOfStripped(s: string)
    requires s == [] || !IsSpace(s[|s| - 1])
    ensures TrimRight(s) == s
  {
  }

  /** Stripping leaves a contiguous piece of the input whose ends are not whitespace,
      and it removes only whitespace. */
  lemma StripFacts(s: string)
    ensures IsStripped(Strip(s))
    ensures |Strip(s)| <= |s|
    ensures IsSubstring(Strip(s), s)
  {
    var l := TrimLeft(s);
    TrimLeftFacts(s);
    TrimRightFacts(l);
    var r := TrimRight(l);
    if r != [] {
      assert r[0] == l[0];
    }
    var k := |s| - |l|;
    assert s[k..k + |r|] == r;
    assert OccursAt(r, s, k);
  }

  /** `s.strip()` is idempotent, and it is the identity on stripped strings. */
  lemma StripOfStripped(s: string)
    requires IsStripped(s)
    ensures Strip(s) == s
  {
    TrimLeftOfStripped(s);
    TrimRightOfStripped(s);
  }

  lemma StripIdempotent(s: string)
    ensures Strip(Strip(s)) == Strip(s)
  {
    StripFacts(s);
    StripOfStripped(Strip(s));
  }

  /** Lower-casing maps whitespace to whitespace and nothing else to whitespace. */
  lemma LowerCharSpace(c: char)
    ensures IsSpace(LowerChar(c)) == IsSpace(c)
  {
  }

  lemma {:induction false} LowerTrimLeft(s: string)
    ensures Lower(TrimLeft(s)) == TrimLeft(Lower(s))
    decreases |s|
  {
    if s != [] {
      LowerCharSpace(s[0]);
      if IsSpace(s[0]) {
        assert Lower(s)[1..] == Lower(s[1..]);
        LowerTrimLeft(s[1..]);
      }
    }
  }

  lemma {:induction false} LowerTrimRight(s: string)
    ensures Lower(TrimRight(s)) == TrimRight(Lower(s))
    decreases |s|
  {
    if s != [] {
      LowerCharSpace(s[|s| - 1]);
      if IsSpace(s[|s| - 1]) {
        assert Lower(s)[..|s| - 1] == Lower(s[..|s| - 1]);
        LowerTrimRight(s[..|s| - 1]);
      }
    }
  }

  /** `s.lower().strip() == s.strip().lower()` */
  lemma LowerStrip(s: string)
    ensures Lower(Strip(s)) == Strip(Lower(s))
  {
    LowerTrimLeft(s);
    LowerTrimRight(TrimLeft(s));
  }

  lemma SubstringTransitive(a: string, b: string, c: string)
    requires IsSubstring(a, b) && IsSubstring(b, c)
    ensures IsSubstring(a, c)
  {
    var i :| 0 <= i <= |b| - |a| && OccursAt(a, b, i);
    var j :| 0 <= j <= |c| - |b| && OccursAt(b, c, j);
    forall k | 0 <= k < |a| ensures c[j + i + k] == a[k] {
      assert a[k] == b[i + k];
      assert b[i + k] == c[j + i + k];
    }
    assert c[j + i..j + i + |a|] == a;
    assert OccursAt(a, c, j + i);
  }

  /** Lower-casing preserves the substring relation. */
  lemma LowerSubstring(a: string, b: string)
    requires IsSubstring(a, b)
    ensures IsSubstring(Lower(a), Lower(b))
  {
    var i :| 0 <= i <= |b| - |a| && OccursAt(a, b, i);
    assert Lower(b)[i..i + |a|] == Lower(a);
    assert OccursAt(Lower(a), Lower(b), i);
  }

  lemma SubstringOfAppend(a: string, x: string, y: string)
    requires IsSubstring(a, x)
    ensures IsSubstring(a, x + y) && IsSubstring(a, y + x)
  {
    var i :| 0 <= i <= |x| - |a| && OccursAt(a, x, i);
    assert (x + y)[i..i + |a|] == a;
    assert OccursAt(a, x + y, i);
    assert (y + x)[|y| + i..|y| + i + |a|] == a;
    assert OccursAt(a, y + x, |y| + i);
  }
}
