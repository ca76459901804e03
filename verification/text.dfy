/**
 * The handful of Python string operations the agents rely on, as functions on
 * `seq<char>`: `p in s`, `s.lower()`, `s.capitalize()`, `s.replace(' ', '')`,
 * `s.strip()`, `s.split(sep)[0]` and the text after the first `sep`.
 */
module Text {

  datatype Option<T> = None | Some(value: T)

  /** `p` occurs in `s` starting at index `i`. */
  predicate OccursAt(s: string, p: string, i: nat) {
    i + |p| <= |s| && s[i..i + |p|] == p
  }

  /** Python's `s.find(p, i)`: the first occurrence of `p` in `s` at or after `i`. */
  function FindFrom(s: string, p: string, i: nat): (r: Option<nat>)
    requires i <= |s|
    ensures r.None? ==> forall j: nat :: i <= j ==> !OccursAt(s, p, j)
    ensures r.Some? ==> i <= r.value && OccursAt(s, p, r.value)
    ensures r.Some? ==> forall j: nat :: i <= j < r.value ==> !OccursAt(s, p, j)
    decreases |s| - i
  {
    if OccursAt(s, p, i) then Some(i)
    else if i == |s| then None
    else FindFrom(s, p, i + 1)
  }

  /** Python's `s.find(p)`, with `None` for -1. */
  function Find(s: string, p: string): (r: Option<nat>)
    ensures r.None? <==> forall j: nat :: !OccursAt(s, p, j)
    ensures r.Some? ==> OccursAt(s, p, r.value) && forall j: nat :: j < r.value ==> !OccursAt(s, p, j)
  {
    FindFrom(s, p, 0)
  }

  /** Python's `p in s`. */
  predicate Contains(s: string, p: string) {
    Find(s, p).Some?
  }

  lemma ContainsAt(s: string, p: string, i: nat)
    requires OccursAt(s, p, i)
    ensures Contains(s, p)
  {
  }

  /** An occurrence in a suffix of `s` is one in `s`, shifted. */
  lemma OccursAfter(s: string, p: string, b: nat, j: nat)
    requires b <= |s|
    ensures OccursAt(s[b..], p, j) <==> OccursAt(s, p, b + j)
  {
    if b + j + |p| <= |s| {
      assert s[b..][j..j + |p|] == s[b + j..b + j + |p|];
    }
  }

  /** An occurrence in a prefix of `s` is one in `s` that ends within the prefix. */
  lemma OccursBefore(s: string, p: string, n: nat, j: nat)
    requires n <= |s|
    ensures OccursAt(s[..n], p, j) <==> OccursAt(s, p, j) && j + |p| <= n
  {
    if j + |p| <= n {
      assert s[..n][j..j + |p|] == s[j..j + |p|];
    }
  }

  /** An occurrence inside one half of a concatenation is one in the whole. */
  lemma {:induction false} ContainsConcat(a: string, b: string, p: string)
    ensures Contains(a, p) ==> Contains(a + b, p)
    ensures Contains(b, p) ==> Contains(a + b, p)
  {
    if Contains(a, p) {
      var i := Find(a, p).value;
      assert (a + b)[..|a|] == a;
      OccursBefore(a + b, p, |a|, i);
      ContainsAt(a + b, p, i);
    }
    if Contains(b, p) {
      var i := Find(b, p).value;
      assert (a + b)[|a|..] == b;
      OccursAfter(a + b, p, |a|, i);
      ContainsAt(a + b, p, |a| + i);
    }
  }

  /** A window that lies inside an embedded copy of `m` is a window of `m`. */
  lemma OccursInside(s: string, m: string, off: nat, p: string, j: nat)
    requires off + |m| <= |s| && s[off..off + |m|] == m
    requires off <= j && j + |p| <= off + |m|
    ensures OccursAt(s, p, j) <==> OccursAt(m, p, j - off)
  {
    var e := off + |m|;
    assert s[..e][off..] == m;
    OccursAfter(s[..e], p, off, j - off);
    OccursBefore(s, p, e, j);
  }

  /** An occurrence inside a window of `s` is one in `s`, shifted by the window's start. */
  lemma OccursWithin(s: string, m: string, off: nat, p: string, j: nat)
    requires OccursAt(s, m, off)
    ensures OccursAt(m, p, j) ==> OccursAt(s, p, off + j)
  {
    if j + |p| <= |m| {
      OccursInside(s, m, off, p, off + j);
    }
  }

  /** A pattern absent from `s` is absent from every window of `s`. */
  lemma NotContainsWithin(s: string, m: string, off: nat, p: string)
    requires OccursAt(s, m, off) && !Contains(s, p)
    ensures !Contains(m, p)
  {
    forall j: nat ensures !OccursAt(m, p, j) {
      OccursWithin(s, m, off, p, j);
    }
  }

  /** A window of `s` that disagrees with `p` at one position is no occurrence of `p`. */
  lemma NotOccursOver(s: string, p: string, j: nat, k: nat)
    requires j <= k < j + |p| && k < |s| && s[k] != p[k - j]
    ensures !OccursAt(s, p, j)
  {
    if j + |p| <= |s| {
      assert s[j..j + |p|][k - j] == s[k];
    }
  }

  /** A pattern longer than the text is not found in it. */
  lemma NotContainsLonger(s: string, p: string)
    requires |p| > |s|
    ensures !Contains(s, p)
  {
  }

  /** Nothing is found in a text that lacks one of the pattern's characters. */
  lemma NotContainsMissingChar(s: string, p: string, c: char)
    requires c in p && c !in s
    ensures !Contains(s, p)
  {
    var k :| 0 <= k < |p| && p[k] == c;
    forall i: nat | i + |p| <= |s| ensures !OccursAt(s, p, i) {
      NotOccursOver(s, p, i, i + k);
    }
  }

  lemma ConcatAssoc(a: string, b: string, c: string)
    ensures (a + b) + c == a + (b + c)
  {
  }

  // ---------------------------------------------------------------- case

  /** `c.lower()` restricted to ASCII. */
  function LowerChar(c: char): char {
    if 'A' <= c <= 'Z' then (c as int + 32) as char else c
  }

  /** `c.upper()` restricted to ASCII. */
  function UpperChar(c: char): char {
    if 'a' <= c <= 'z' then (c as int - 32) as char else c
  }

  /** `s.lower()` restricted to ASCII letters. */
  function Lower(s: string): (r: string)
    ensures |r| == |s|
    ensures forall i :: 0 <= i < |s| ==> r[i] == LowerChar(s[i])
  {
    if s == [] then [] else [LowerChar(s[0])] + Lower(s[1..])
  }

  /** Lowering twice is lowering once. */
  lemma {:induction false} LowerIdempotent(s: string)
    ensures Lower(Lower(s)) == Lower(s)
  {
    if s != [] {
      LowerIdempotent(s[1..]);
      assert Lower(s)[1..] == Lower(s[1..]);
    }
  }

  /** `s.capitalize()` restricted to ASCII: first character upper case, the rest lower case. */
  function Capitalize(s: string): (r: string)
    ensures |r| == |s|
    ensures s != [] ==> r[0] == UpperChar(s[0])
    ensures forall i :: 0 < i < |s| ==> r[i] == LowerChar(s[i])
    ensures Lower(r) == Lower(s)
  {
    if s == [] then [] else
      CapitalizeChangesOnlyCase(s);
      [UpperChar(s[0])] + Lower(s[1..])
  }

  /** Lowering an upper-cased character is lowering it. */
  lemma LowerUpperChar(c: char)
    ensures LowerChar(UpperChar(c)) == LowerChar(c)
  {
  }

  /** Lowering a lowered character changes nothing. */
  lemma LowerLowerChar(c: char)
    ensures LowerChar(LowerChar(c)) == LowerChar(c)
  {
  }

  /** The first character upper-cased and the rest lowered: only case changes. */
  lemma CapitalizeChangesOnlyCase(s: string)
    requires s != []
    ensures var r := [UpperChar(s[0])] + Lower(s[1..]);
            (forall i :: 0 < i < |s| ==> r[i] == LowerChar(s[i])) && Lower(r) == Lower(s)
  {
    var r := [UpperChar(s[0])] + Lower(s[1..]);
    forall i | 0 < i < |s| ensures r[i] == LowerChar(s[i]) {
      assert r[i] == Lower(s[1..])[i - 1];
    }
    forall i | 0 <= i < |s| ensures Lower(r)[i] == Lower(s)[i] {
      if i == 0 {
        LowerUpperChar(s[0]);
      } else {
        LowerLowerChar(s[i]);
      }
    }
  }

  // ---------------------------------------------------------------- spaces

  /** `s.replace(' ', '')`: every space character removed, everything else kept in order. */
  function RemoveSpaces(s: string): (r: string)
    ensures ' ' !in r
    ensures |r| <= |s|
    ensures ' ' !in s ==> r == s
  {
    if s == [] then []
    else if s[0] == ' ' then RemoveSpaces(s[1..])
    else [s[0]] + RemoveSpaces(s[1..])
  }

  /** Removing spaces works piecewise on a concatenation. */
  lemma {:induction false} RemoveSpacesConcat(a: string, b: string)
    ensures RemoveSpaces(a + b) == RemoveSpaces(a) + RemoveSpaces(b)
  {
    if a == [] {
      assert a + b == b;
    } else {
      assert (a + b)[1..] == a[1..] + b;
      RemoveSpacesConcat(a[1..], b);
      if a[0] != ' ' {
        calc {
          RemoveSpaces(a + b);
          [a[0]] + RemoveSpaces(a[1..] + b);
          [a[0]] + (RemoveSpaces(a[1..]) + RemoveSpaces(b));
          ([a[0]] + RemoveSpaces(a[1..])) + RemoveSpaces(b);
        }
      }
    }
  }

  /** Two space-free words joined by one space lose exactly that space. */
  lemma RemoveOneSpace(a: string, b: string)
    requires ' ' !in a && ' ' !in b
    ensures RemoveSpaces(a + " " + b) == a + b
  {
    var sb := " " + b;
    assert sb[1..] == b;
    assert RemoveSpaces(sb) == b;
    ConcatAssoc(a, " ", b);
    RemoveSpacesConcat(a, sb);
  }

  /** An occurrence survives the removal of spaces from both the text and the pattern. */
  lemma ContainsRemoveSpaces(s: string, p: string)
    requires Contains(s, p)
    ensures Contains(RemoveSpaces(s), RemoveSpaces(p))
  {
    var i := Find(s, p).value;
    var x, y := s[..i], s[i + |p|..];
    assert s == x + p + y;
    RemoveSpacesConcat(x + p, y);
    RemoveSpacesConcat(x, p);
    var r := RemoveSpaces(s);
    assert r == RemoveSpaces(x) + RemoveSpaces(p) + RemoveSpaces(y);
    var n := |RemoveSpaces(x)|;
    assert r[n..n + |RemoveSpaces(p)|] == RemoveSpaces(p);
    ContainsAt(r, RemoveSpaces(p), n);
  }

  // ---------------------------------------------------------------- strip

  /** Python's `c.isspace()`. */
  predicate IsSpace(c: char) {
    var n := c as int;
    (9 <= n <= 13) || (28 <= n <= 32) || n == 0x85 || n == 0xA0 || n == 0x1680
    || (0x2000 <= n <= 0x200A) || n == 0x2028 || n == 0x2029 || n == 0x202F
    || n == 0x205F || n == 0x3000
  }

  /** `s.lstrip()`: drops the leading white space. */
  function StripLeft(s: string): (r: string)
    ensures |r| <= |s| && r == s[|s| - |r|..]
    ensures forall i :: 0 <= i < |s| - |r| ==> IsSpace(s[i])
    ensures r != [] ==> !IsSpace(r[0])
  {
    if s != [] && IsSpace(s[0]) then StripLeft(s[1..]) else s
  }

  /** `s.rstrip()`: drops the trailing white space. */
  function StripRight(s: string): (r: string)
    ensures |r| <= |s| && r == s[..|r|]
    ensures forall i :: |r| <= i < |s| ==> IsSpace(s[i])
    ensures r != [] ==> !IsSpace(r[|r| - 1])
  {
    if s != [] && IsSpace(s[|s| - 1]) then StripRight(s[..|s| - 1]) else s
  }

  /** Every character of `s` is white space. */
  predicate AllSpace(s: string) {
    forall i :: 0 <= i < |s| ==> IsSpace(s[i])
  }

  /** `s.strip()`: drops white space at both ends. */
  function Strip(s: string): (r: string)
    ensures r != [] ==> !IsSpace(r[0]) && !IsSpace(r[|r| - 1])
    ensures exists i: nat :: OccursAt(s, r, i) && AllSpace(s[..i]) && AllSpace(s[i + |r|..])
  {
    var l := StripLeft(s);
    var r := StripRight(l);
    var i := |s| - |l|;
    assert s[i..i + |r|] == r;
    assert OccursAt(s, r, i);
    r
  }

  /** Leading white space makes no difference to `strip()`. */
  lemma StripLeadingSpace(c: char, s: string)
    requires IsSpace(c)
    ensures Strip([c] + s) == Strip(s)
  {
    assert ([c] + s)[1..] == s;
  }

  /** `lstrip()` of a text with one more white-space character at its end. */
  lemma {:induction false} StripLeftAppendSpace(s: string, c: char)
    requires IsSpace(c)
    ensures StripLeft(s + [c]) == if StripLeft(s) == [] then [] else StripLeft(s) + [c]
  {
    if s == [] {
      assert [c][1..] == [];
    } else if IsSpace(s[0]) {
      assert (s + [c])[1..] == s[1..] + [c];
      StripLeftAppendSpace(s[1..], c);
    }
  }

  /** Trailing white space makes no difference to `strip()`. */
  lemma StripTrailingSpace(s: string, c: char)
    requires IsSpace(c)
    ensures Strip(s + [c]) == Strip(s)
  {
    StripLeftAppendSpace(s, c);
    var l := StripLeft(s);
    if l != [] {
      assert (l + [c])[..|l|] == l;
    }
  }

  // ---------------------------------------------------------------- split

  /** `s.split(sep)[0]`: the text before the first occurrence of `sep`, or all of `s`. */
  function SplitHead(s: string, sep: string): (r: string)
    requires sep != []
    ensures |r| <= |s| && r == s[..|r|]
    ensures r == s <==> !Contains(s, sep)
    ensures r != s ==> OccursAt(s, sep, |r|)
    ensures r != s ==> Find(s, sep) == Some(|r|)
    ensures forall j: nat :: !OccursAt(r, sep, j)
  {
    match Find(s, sep)
    case None => s
    case Some(i) =>
      assert forall j: nat :: OccursAt(s[..i], sep, j) ==> OccursAt(s, sep, j);
      s[..i]
  }

  /** The text after the first occurrence of `sep` (`s.partition(sep)[2]`). */
  function SplitTail(s: string, sep: string): (r: string)
    requires sep != [] && Contains(s, sep)
    ensures s == SplitHead(s, sep) + sep + r
  {
    var i := Find(s, sep).value;
    assert s == s[..i] + s[i..i + |sep|] + s[i + |sep|..];
    s[i + |sep|..]
  }

  /** `text.split(a)[1].split(c)[0].strip()` is a window of the text after the first `a`, holding neither separator. */
  lemma SplitWindow(text: string, a: string, c: string)
    requires a != [] && c != [] && Contains(text, a)
    ensures var q := Strip(SplitHead(SplitHead(SplitTail(text, a), a), c));
            !Contains(q, a) && !Contains(q, c)
            && exists i: nat :: Find(text, a).value + |a| <= i && OccursAt(text, q, i)
  {
    TailWindow(text, a);
    WindowHeadsWindow(text, SplitTail(text, a), Find(text, a).value + |a|, a, c);
  }

  /** The same for a window `tail` of `text` at `off`: the result lies at or after `off`. */
  lemma WindowHeadsWindow(text: string, tail: string, off: nat, a: string, c: string)
    requires a != [] && c != [] && OccursAt(text, tail, off)
    ensures var q := Strip(SplitHead(SplitHead(tail, a), c));
            !Contains(q, a) && !Contains(q, c) && exists i: nat :: off <= i && OccursAt(text, q, i)
  {
    HeadsWindow(tail, a, c);
    var q := Strip(SplitHead(SplitHead(tail, a), c));
    var i: nat :| OccursAt(tail, q, i);
    OccursWithin(text, tail, off, q, i);
  }

  /** `t.split(a)[0].split(c)[0].strip()` is a window of `t` holding neither separator. */
  lemma HeadsWindow(t: string, a: string, c: string)
    requires a != [] && c != []
    ensures var q := Strip(SplitHead(SplitHead(t, a), c));
            !Contains(q, a) && !Contains(q, c) && exists i: nat :: OccursAt(t, q, i)
  {
    var h1 := SplitHead(t, a);
    HeadWindow(t, a);
    StripHeadWindow(h1, c, a);
    var q := Strip(SplitHead(h1, c));
    var i: nat :| OccursAt(h1, q, i);
    OccursWithin(t, h1, 0, q, i);
  }

  /** `h.split(c)[0].strip()` is a window of `h` without `c`, and without whatever `h` lacks. */
  lemma StripHeadWindow(h: string, c: string, p: string)
    requires c != [] && !Contains(h, p)
    ensures var q := Strip(SplitHead(h, c));
            !Contains(q, c) && !Contains(q, p) && exists i: nat :: OccursAt(h, q, i)
  {
    var h2 := SplitHead(h, c);
    HeadWindow(h, c);
    StripWindow(h2);
    var q := Strip(h2);
    var i: nat :| OccursAt(h2, q, i);
    OccursWithin(h, h2, 0, q, i);
    NotContainsWithin(h, h2, 0, p);
    NotContainsWithin(h2, q, i, p);
    NotContainsWithin(h2, q, i, c);
  }

  /** The text after the first `sep` is the window of `s` that starts right after it. */
  lemma TailWindow(s: string, sep: string)
    requires sep != [] && Contains(s, sep)
    ensures OccursAt(s, SplitTail(s, sep), Find(s, sep).value + |sep|)
  {
    SplitAt(s, sep, Find(s, sep).value);
  }

  /** `split(sep)[0]` is a prefix of `s` without `sep`. */
  lemma HeadWindow(s: string, sep: string)
    requires sep != []
    ensures OccursAt(s, SplitHead(s, sep), 0) && !Contains(SplitHead(s, sep), sep)
  {
  }

  /** `strip()` gives a window of its input. */
  lemma StripWindow(s: string)
    ensures exists i: nat :: OccursAt(s, Strip(s), i)
  {
    var r := Strip(s);
    var i: nat :| OccursAt(s, r, i) && AllSpace(s[..i]) && AllSpace(s[i + |r|..]);
  }

  /** The split parts at a known first occurrence of the separator. */
  lemma SplitAt(s: string, sep: string, i: nat)
    requires sep != [] && OccursAt(s, sep, i)
    requires forall j: nat :: j < i ==> !OccursAt(s, sep, j)
    ensures Contains(s, sep) && SplitHead(s, sep) == s[..i] && SplitTail(s, sep) == s[i + |sep|..]
  {
    ContainsAt(s, sep, i);
  }
}
