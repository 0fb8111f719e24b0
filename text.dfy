/** The string operations of Python that the service relies on: `str.strip()` with no
    argument, and `str.split(sep)` / `sep.join(parts)` for a one-character separator. */
module Text {

  /** A character Python's `str.isspace()` accepts, the set `str.strip()` removes. */
  predicate IsSpace(c: char) {
    || ('\t' <= c <= '\r')
    || ('\U{1C}' <= c <= '\U{1F}')
    || c == ' '
    || c == '\U{85}'
    || c == '\U{A0}'
    || c == '\U{1680}'
    || ('\U{2000}' <= c <= '\U{200A}')
    || c == '\U{2028}'
    || c == '\U{2029}'
    || c == '\U{202F}'
    || c == '\U{205F}'
    || c == '\U{3000}'
  }

  predicate IsBlank(s: string) {
    forall i :: 0 <= i < |s| ==> IsSpace(s[i])
  }

  /** Python's `str.isascii()`. */
  predicate IsAscii(s: string) {
    forall i :: 0 <= i < |s| ==> s[i] as int < 0x80
  }

  /** The length of the run of characters of the class `p` that starts `s`. */
  function LeadingRun(s: string, p: char -> bool): (k: nat)
    ensures k <= |s|
    ensures forall i :: 0 <= i < k ==> p(s[i])
    ensures k < |s| ==> !p(s[k])
  {
    if |s| > 0 && p(s[0]) then 1 + LeadingRun(s[1..], p) else 0
  }

  /** The length of the run of characters of the class `p` that ends `s`. */
  function TrailingRun(s: string, p: char -> bool): (k: nat)
    ensures k <= |s|
    ensures forall i :: |s| - k <= i < |s| ==> p(s[i])
    ensures k < |s| ==> !p(s[|s| - 1 - k])
  {
    if |s| > 0 && p(s[|s| - 1]) then 1 + TrailingRun(s[..|s| - 1], p) else 0
  }

  /** `s` without the characters of the class `p` at either end. */
  function TrimBy(s: string, p: char -> bool): (r: string)
    ensures |r| <= |s|
    ensures r == "" <==> forall i :: 0 <= i < |s| ==> p(s[i])
    ensures r != "" ==> !p(r[0]) && !p(r[|r| - 1])
  {
    var a := LeadingRun(s, p);
    var t := s[a..];
    t[..|t| - TrailingRun(t, p)]
  }

  /** Python's `s.strip()`: `s` with its leading and trailing whitespace removed. */
  function Strip(s: string): (r: string)
    ensures |r| <= |s|
    ensures r == "" <==> IsBlank(s)
    ensures r != "" ==> !IsSpace(r[0]) && !IsSpace(r[|r| - 1])
  {
    TrimBy(s, IsSpace)
  }

  /** What `Strip` keeps is one contiguous piece of `s`, and all it drops is whitespace. */
  lemma StripIsSlice(s: string) returns (a: nat)
    ensures a + |Strip(s)| <= |s|
    ensures Strip(s) == s[a..a + |Strip(s)|]
    ensures IsBlank(s[..a]) && IsBlank(s[a + |Strip(s)|..])
  {
    a := LeadingRun(s, IsSpace);
    var t := s[a..];
    var r := Strip(s);
    assert r == t[..|t| - TrailingRun(t, IsSpace)];
    assert r == s[a..a + |r|];
    assert IsBlank(s[..a]);
    assert IsBlank(t[|r|..]) by {
      forall i | 0 <= i < |t| - |r| ensures IsSpace(t[|r|..][i]) {
        assert t[|r|..][i] == t[|r| + i];
      }
    }
    assert s[a + |r|..] == t[|r|..];
  }

  /** A string that neither starts nor ends with a character of the class is its own trim. */
  lemma TrimUnpadded(s: string, p: char -> bool)
    requires s != "" && !p(s[0]) && !p(s[|s| - 1])
    ensures TrimBy(s, p) == s
  {
    assert LeadingRun(s, p) == 0;
    assert TrailingRun(s, p) == 0;
  }

  /** One character of the class at each end of an unpadded string is all the trim removes. */
  lemma TrimPadded(x: char, core: string, y: char, p: char -> bool)
    requires p(x) && p(y) && core != "" && !p(core[0]) && !p(core[|core| - 1])
    ensures TrimBy([x] + core + [y], p) == core
  {
    var s := [x] + core + [y];
    var t := core + [y];
    assert s[1..] == t && t[..|t| - 1] == core;
    assert LeadingRun(t, p) == 0;
    assert LeadingRun(s, p) == 1;
    assert TrailingRun(core, p) == 0;
    assert TrailingRun(t, p) == 1;
  }

  /** A string that neither starts nor ends with whitespace is its own strip. */
  lemma StripUnpadded(s: string)
    requires s != "" && !IsSpace(s[0]) && !IsSpace(s[|s| - 1])
    ensures Strip(s) == s
  {
    TrimUnpadded(s, IsSpace);
  }

  /** Stripping adds no character: a `sep`-free string stays `sep`-free. */
  lemma StripFreeOf(s: string, sep: char)
    requires FreeOf(s, sep)
    ensures FreeOf(Strip(s), sep)
  {
    var r := Strip(s);
    var a := StripIsSlice(s);
    forall i | 0 <= i < |r| ensures r[i] != sep {
      assert r[i] == s[a + i];
    }
  }

  /** Python's `sep.join(parts)`. */
  function Join(parts: seq<string>, sep: char): string {
    if |parts| == 0 then ""
    else if |parts| == 1 then parts[0]
    else parts[0] + [sep] + Join(parts[1..], sep)
  }

  predicate FreeOf(s: string, sep: char) {
    forall i :: 0 <= i < |s| ==> s[i] != sep
  }

  /** Python's `s.split(sep)`: the maximal `sep`-free segments of `s`, in order, always at
      least one of them; joining them again with `sep` gives back `s`. */
  function Split(s: string, sep: char): (parts: seq<string>)
    ensures |parts| >= 1
    ensures forall i :: 0 <= i < |parts| ==> FreeOf(parts[i], sep)
    ensures Join(parts, sep) == s
  {
    if |s| == 0 then [""]
    else
      var rest := Split(s[1..], sep);
      if s[0] == sep then
        assert s == [sep] + s[1..];
        [""] + rest
      else
        assert s == [s[0]] + s[1..];
        [[s[0]] + rest[0]] + rest[1..]
  }

  /** A `sep`-free prefix is glued onto the first segment of what follows it. */
  lemma {:induction false} SplitFreePrefix(x: string, y: string, sep: char)
    requires FreeOf(x, sep)
    ensures Split(x + y, sep) == [x + Split(y, sep)[0]] + Split(y, sep)[1..]
  {
    if x == [] {
      assert x + y == y && x + Split(y, sep)[0] == Split(y, sep)[0];
    } else {
      var x' := x[1..];
      assert (x + y)[0] == x[0] && (x + y)[1..] == x' + y;
      SplitFreePrefix(x', y, sep);
      assert [x[0]] + (x' + Split(y, sep)[0]) == x + Split(y, sep)[0];
    }
  }

  /** A leading separator closes an empty first segment. */
  lemma SplitLeadingSeparator(rest: string, sep: char)
    ensures Split([sep] + rest, sep) == [""] + Split(rest, sep)
  {
    assert ([sep] + rest)[0] == sep && ([sep] + rest)[1..] == rest;
  }

  /** One step of `SplitOfJoin`: a `sep`-free part in front of a list that splitting gives
      back is itself given back. */
  lemma SplitOfJoinStep(first: string, tail: seq<string>, sep: char)
    requires FreeOf(first, sep) && |tail| >= 1
    requires Split(Join(tail, sep), sep) == tail
    ensures Split(Join([first] + tail, sep), sep) == [first] + tail
  {
    var rest := Join(tail, sep);
    var after := [sep] + rest;
    assert ([first] + tail)[1..] == tail;
    assert Join([first] + tail, sep) == first + after;
    SplitLeadingSeparator(rest, sep);
    SplitFreePrefix(first, after, sep);
    assert first + "" == first;
  }

  /** Splitting undoes joining: `Split` and `Join` are inverse on lists of `sep`-free parts. */
  lemma {:induction false} SplitOfJoin(parts: seq<string>, sep: char)
    requires |parts| >= 1
    requires forall i :: 0 <= i < |parts| ==> FreeOf(parts[i], sep)
    ensures Split(Join(parts, sep), sep) == parts
  {
    if |parts| == 1 {
      SplitFreePrefix(parts[0], "", sep);
      assert parts[0] + "" == parts[0];
    } else {
      SplitOfJoin(parts[1..], sep);
      SplitOfJoinStep(parts[0], parts[1..], sep);
      assert [parts[0]] + parts[1..] == parts;
    }
  }

  lemma {:induction false} JoinAppend(p: seq<string>, q: seq<string>, sep: char)
    requires |p| >= 1 && |q| >= 1
    ensures Join(p + q, sep) == Join(p, sep) + [sep] + Join(q, sep)
  {
    if |p| > 1 {
      JoinAppend(p[1..], q, sep);
      assert (p + q)[1..] == p[1..] + q;
    }
  }

  /** One separator in the input splits the list of segments in two. */
  lemma SplitAtSeparator(a: string, b: string, sep: char)
    ensures Split(a + [sep] + b, sep) == Split(a, sep) + Split(b, sep)
  {
    var p, q := Split(a, sep), Split(b, sep);
    JoinAppend(p, q, sep);
    SplitOfJoin(p + q, sep);
  }
}
