/** String operations shared by the models: the parts of Python's `str` and of C++'s
    `std::string`/`std::stringstream` that the modelled code relies on. */
module Text {

  datatype Option<+T> = None | Some(value: T)

  /** White space as Python's `str.strip` and the `\s` class of its `re` module see it. */
  predicate IsSpace(c: char) {
    var n := c as int;
    || 0x09 <= n <= 0x0D || 0x1C <= n <= 0x20 || n == 0x85 || n == 0xA0 || n == 0x1680
    || 0x2000 <= n <= 0x200A || n == 0x2028 || n == 0x2029 || n == 0x202F || n == 0x205F || n == 0x3000
  }

  /** The character that `lstrip(" ")` and splitting on blanks look for. */
  predicate IsBlank(c: char) {
    c == ' '
  }

  /** The characters at which Python's `str.splitlines` ends a line. */
  predicate IsLineBreak(c: char) {
    var n := c as int;
    0x0A <= n <= 0x0D || 0x1C <= n <= 0x1E || n == 0x85 || n == 0x2028 || n == 0x2029
  }

  /** The white space among the first 128 characters, and that line breaks are white space. */
  lemma WhiteSpace(c: char)
    ensures c < '\U{80}' ==>
              (IsSpace(c) <==>
               c in {' ', '\t', '\n', '\r', '\U{0B}', '\U{0C}', '\U{1C}', '\U{1D}', '\U{1E}', '\U{1F}'})
    ensures IsLineBreak(c) ==> IsSpace(c)
    ensures c < '\U{80}' && IsSpace(c) ==> (IsLineBreak(c) <==> c !in {' ', '\t', '\U{1F}'})
  {}

  predicate NoLineBreak(s: string) {
    forall i | 0 <= i < |s| :: !IsLineBreak(s[i])
  }

  predicate StartsWith(s: string, prefix: string) {
    prefix <= s
  }

  // ---------- sequences and sets ----------

  function Map<A, B>(f: A -> B, s: seq<A>): (r: seq<B>)
    ensures |r| == |s|
    ensures forall i | 0 <= i < |s| :: r[i] == f(s[i])
  {
    seq(|s|, i requires 0 <= i < |s| => f(s[i]))
  }

  lemma MapConcat<A, B>(f: A -> B, a: seq<A>, b: seq<A>)
    ensures Map(f, a + b) == Map(f, a) + Map(f, b)
  {}

  lemma {:induction false} SubsetSize<T>(a: set<T>, b: set<T>)
    requires a <= b
    ensures |a| <= |b|
  {
    if a != {} {
      var x :| x in a;
      SubsetSize(a - {x}, b - {x});
    }
  }

  // ---------- trimming ----------

  function TrimLeft(s: string, blank: char -> bool): (r: string)
    ensures |r| <= |s|
  {
    if s != "" && blank(s[0]) then TrimLeft(s[1..], blank) else s
  }

  function TrimRight(s: string, blank: char -> bool): (r: string)
    ensures |r| <= |s|
  {
    if s != "" && blank(s[|s| - 1]) then TrimRight(s[..|s| - 1], blank) else s
  }

  lemma {:induction false} TrimLeftFacts(s: string, blank: char -> bool)
    ensures var r := TrimLeft(s, blank);
            && r == s[|s| - |r|..] && (r == "" || !blank(r[0]))
            && forall i | 0 <= i < |s| - |r| :: blank(s[i])
  {
    if s != "" && blank(s[0]) { TrimLeftFacts(s[1..], blank); }
  }

  lemma {:induction false} TrimRightFacts(s: string, blank: char -> bool)
    ensures var r := TrimRight(s, blank);
            && r <= s && (r == "" || !blank(r[|r| - 1]))
            && forall i | |r| <= i < |s| :: blank(s[i])
  {
    if s != "" && blank(s[|s| - 1]) { TrimRightFacts(s[..|s| - 1], blank); }
  }

  function Strip(s: string): string {
    TrimRight(TrimLeft(s, IsSpace), IsSpace)
  }

  predicate Trimmed(s: string) {
    s == "" || (!IsSpace(s[0]) && !IsSpace(s[|s| - 1]))
  }

  lemma StripTrimmed(s: string)
    requires Trimmed(s)
    ensures Strip(s) == s
  {}

  /** One blank in front of a trimmed string is all that `Strip` removes. */
  lemma StripLeadingBlank(s: string)
    requires Trimmed(s)
    ensures Strip(" " + s) == s
  {
    var t := " " + s;
    assert t != "" && IsSpace(t[0]) && t[1..] == s;
    StripTrimmed(s);
  }

  /** Stripping removes the white space at both ends and nothing else. */
  lemma {:induction false} StripPeels(left: string, s: string, right: string)
    requires (forall i | 0 <= i < |left| :: IsSpace(left[i])) && forall i | 0 <= i < |right| :: IsSpace(right[i])
    requires Trimmed(s)
    ensures Strip(left + s + right) == s
  {
    var t := left + s + right;
    TrimLeftFacts(t, IsSpace);
    var r := TrimLeft(t, IsSpace);
    if s == "" {
      assert forall i | 0 <= i < |t| :: IsSpace(t[i]);
    } else {
      assert t[|left|] == s[0];
      assert |r| == |s| + |right|;
      assert r == s + right;
      TrimRightFacts(r, IsSpace);
      assert r[|s| - 1] == s[|s| - 1];
    }
  }

  // ---------- indentation ----------

  function Pad(n: nat): (s: string)
    ensures |s| == n
  {
    seq(n, i => ' ')
  }

  lemma PadTail(n: nat, s: string)
    requires n > 0
    ensures (Pad(n) + s)[0] == ' ' && (Pad(n) + s)[1..] == Pad(n - 1) + s
  {}

  lemma {:induction false} TrimPad(n: nat, s: string, blank: char -> bool)
    requires blank(' ')
    ensures TrimLeft(Pad(n) + s, blank) == TrimLeft(s, blank)
  {
    if n == 0 {
      assert Pad(0) + s == s;
    } else {
      TrimPad(n - 1, s, blank);
      PadTail(n, s);
    }
  }

  lemma PadFacts(n: nat)
    ensures NoLineBreak(Pad(n))
  {}

  // ---------- searching ----------

  /** `s.find(pat, from)`: the first index at or after `from` where `pat` occurs, or -1. */
  function Find(s: string, pat: string, from: nat): (r: int)
    requires from <= |s|
    ensures r == -1 || from <= r <= |s| - |pat|
    decreases |s| - from
  {
    if from + |pat| > |s| then -1
    else if s[from..from + |pat|] == pat then from
    else if from == |s| then -1
    else Find(s, pat, from + 1)
  }

  ghost predicate OccursAt(s: string, pat: string, k: nat) {
    k + |pat| <= |s| && s[k..k + |pat|] == pat
  }

  lemma {:induction false} FindIsFirst(s: string, pat: string, from: nat)
    requires from <= |s|
    ensures var r := Find(s, pat, from);
            && (r != -1 ==> OccursAt(s, pat, r))
            && forall k: nat | from <= k && (r == -1 || k < r) :: !OccursAt(s, pat, k)
    decreases |s| - from
  {
    if from < |s| { FindIsFirst(s, pat, from + 1); }
  }

  lemma FindUnique(s: string, pat: string, from: nat, r: nat)
    requires from <= r && OccursAt(s, pat, r)
    requires forall k: nat | from <= k < r :: !OccursAt(s, pat, k)
    ensures Find(s, pat, from) == r
  {
    FindIsFirst(s, pat, from);
    var q := Find(s, pat, from);
    if q != -1 { assert OccursAt(s, pat, q); }
  }

  /** The index of the first character that satisfies `stop`, or the length. */
  function IndexOf(s: string, stop: char -> bool): (r: nat)
    ensures r <= |s|
  {
    if s == "" || stop(s[0]) then 0 else 1 + IndexOf(s[1..], stop)
  }

  lemma {:induction false} IndexOfFacts(s: string, stop: char -> bool)
    ensures var r := IndexOf(s, stop);
            && (r < |s| ==> stop(s[r]))
            && forall i | 0 <= i < r :: !stop(s[i])
  {
    if s != "" && !stop(s[0]) { IndexOfFacts(s[1..], stop); }
  }

  lemma IndexOfUnique(s: string, stop: char -> bool, r: nat)
    requires r <= |s| && (r < |s| ==> stop(s[r]))
    requires forall i | 0 <= i < r :: !stop(s[i])
    ensures IndexOf(s, stop) == r
  {
    IndexOfFacts(s, stop);
    var q := IndexOf(s, stop);
    if q < r { assert false; }
  }

  // ---------- lines ----------

  /** `text.splitlines()`; a carriage return followed by a line feed ends one line. */
  function SplitLines(text: string): seq<string> {
    if text == "" then []
    else
      var i := IndexOf(text, IsLineBreak);
      if i == |text| then [text]
      else
        var width := if text[i] == '\r' && i + 1 < |text| && text[i + 1] == '\n' then 2 else 1;
        [text[..i]] + SplitLines(text[i + width..])
  }

  /** Every line followed by a line feed. */
  function Unlines(lines: seq<string>): string {
    if lines == [] then "" else lines[0] + "\n" + Unlines(lines[1..])
  }

  lemma SplitLinesCons(line: string, rest: string)
    requires NoLineBreak(line)
    ensures SplitLines(line + "\n" + rest) == [line] + SplitLines(rest)
  {
    var text := line + "\n" + rest;
    IndexOfUnique(text, IsLineBreak, |line|);
    assert text[..|line|] == line && text[|line| + 1..] == rest;
  }

  /** How a line may end: with a line break, a carriage return and a line feed counting as one,
      or with the text. */
  predicate EndsLine(end: string, rest: string) {
    || end == "\r\n"
    || (|end| == 1 && IsLineBreak(end[0]) && !(end == "\r" && rest != "" && rest[0] == '\n'))
    || (end == "" && rest == "")
  }

  /** The first line of a text is what stands in front of its first line end. */
  lemma SplitLinesFirst(line: string, end: string, rest: string)
    requires NoLineBreak(line) && EndsLine(end, rest) && line + end != ""
    ensures SplitLines(line + end + rest) == [line] + SplitLines(rest)
  {
    var text := line + end + rest;
    IndexOfUnique(text, IsLineBreak, |line|);
    if end == "" {
      assert text == line;
    } else {
      assert text[|line|] == end[0] && text[..|line|] == line && text[|line| + |end|..] == rest;
      if |end| == 2 { assert text[|line| + 1] == end[1]; }
      if |end| == 1 && rest != "" { assert text[|line| + 1] == rest[0]; }
    }
  }

  lemma {:induction false} SplitLinesUnlines(lines: seq<string>)
    requires forall i | 0 <= i < |lines| :: NoLineBreak(lines[i])
    ensures SplitLines(Unlines(lines)) == lines
  {
    if lines != [] {
      SplitLinesUnlines(lines[1..]);
      SplitLinesCons(lines[0], Unlines(lines[1..]));
    }
  }

  lemma {:induction false} SplitLinesPieces(text: string)
    ensures forall i | 0 <= i < |SplitLines(text)| :: NoLineBreak(SplitLines(text)[i])
  {
    if text != "" {
      var i := IndexOf(text, IsLineBreak);
      IndexOfFacts(text, IsLineBreak);
      if i < |text| {
        var width := if text[i] == '\r' && i + 1 < |text| && text[i + 1] == '\n' then 2 else 1;
        SplitLinesPieces(text[i + width..]);
      }
    }
  }

  // ---------- joining and splitting on one character ----------

  function Join(parts: seq<string>, sep: string): string {
    if parts == [] then ""
    else if |parts| == 1 then parts[0]
    else parts[0] + sep + Join(parts[1..], sep)
  }

  /** `s.split(c)`: always at least one piece. */
  function SplitOn(s: string, c: char): (r: seq<string>)
    ensures |r| >= 1
  {
    var i := IndexOf(s, x => x == c);
    if i == |s| then [s] else [s[..i]] + SplitOn(s[i + 1..], c)
  }

  lemma {:induction false} SplitOnJoin(parts: seq<string>, c: char)
    requires parts != []
    requires forall i | 0 <= i < |parts| :: c !in parts[i]
    ensures SplitOn(Join(parts, [c]), c) == parts
  {
    var s := Join(parts, [c]);
    if |parts| == 1 {
      IndexOfUnique(s, x => x == c, |s|);
    } else {
      IndexOfUnique(s, x => x == c, |parts[0]|);
      assert s[..|parts[0]|] == parts[0];
      assert s[|parts[0]| + 1..] == Join(parts[1..], [c]);
      SplitOnJoin(parts[1..], c);
    }
  }

  lemma {:induction false} SplitOnPieces(s: string, c: char)
    requires NoLineBreak(s)
    ensures forall i | 0 <= i < |SplitOn(s, c)| :: c !in SplitOn(s, c)[i] && NoLineBreak(SplitOn(s, c)[i])
  {
    var i := IndexOf(s, x => x == c);
    IndexOfFacts(s, x => x == c);
    if i < |s| { SplitOnPieces(s[i + 1..], c); }
  }

  lemma SplitOnCons(first: string, rest: string, c: char)
    requires c !in first
    ensures SplitOn(first + [c] + rest, c) == [first] + SplitOn(rest, c)
    ensures SplitOn(first, c) == [first]
  {
    var s := first + [c] + rest;
    IndexOfUnique(s, x => x == c, |first|);
    IndexOfUnique(first, x => x == c, |first|);
    assert s[..|first|] == first && s[|first| + 1..] == rest;
  }

  /** Behind the comma of `, ` the next piece starts with the blank. */
  lemma JoinCommas(first: string, rest: seq<string>, lead: string)
    requires rest != []
    ensures lead + Join([first] + rest, ", ") == (lead + first) + "," + (" " + Join(rest, ", "))
  {
    assert ([first] + rest)[1..] == rest;
  }

  /** Splitting `a, b, c` at the commas: every piece but the first keeps its blank. */
  lemma {:induction false} SplitOnCommas(parts: seq<string>, lead: string)
    requires parts != [] && ',' !in lead && forall i | 0 <= i < |parts| :: ',' !in parts[i]
    ensures var pieces := SplitOn(lead + Join(parts, ", "), ',');
            && |pieces| == |parts| && pieces[0] == lead + parts[0]
            && forall i | 0 < i < |pieces| :: pieces[i] == " " + parts[i]
  {
    var first := lead + parts[0];
    if |parts| == 1 {
      SplitOnCons(first, "", ',');
    } else {
      assert parts == [parts[0]] + parts[1..];
      JoinCommas(parts[0], parts[1..], lead);
      SplitOnCons(first, " " + Join(parts[1..], ", "), ',');
      SplitOnCommas(parts[1..], " ");
    }
  }

  // ---------- decimal numerals ----------

  predicate IsDigit(c: char) {
    '0' <= c <= '9'
  }

  predicate AllDigits(s: string) {
    forall i | 0 <= i < |s| :: IsDigit(s[i])
  }

  function DigitOf(d: nat): (c: char)
    requires d < 10
    ensures IsDigit(c) && c as int - '0' as int == d
  {
    ('0' as int + d) as char
  }

  /** `std::to_string` and Python's `str` on a non-negative integer. */
  function NatToString(n: nat): (s: string)
    ensures s != "" && AllDigits(s)
  {
    if n < 10 then [DigitOf(n)] else NatToString(n / 10) + [DigitOf(n % 10)]
  }

  function StringToNat(s: string): nat
    requires AllDigits(s)
  {
    if s == "" then 0
    else 10 * StringToNat(s[..|s| - 1]) + (s[|s| - 1] as int - '0' as int)
  }

  lemma {:induction false} NatRoundTrip(n: nat)
    ensures StringToNat(NatToString(n)) == n
  {
    var s := NatToString(n);
    if n < 10 {
      assert s[..0] == "";
    } else {
      NatRoundTrip(n / 10);
      assert s[..|s| - 1] == NatToString(n / 10);
    }
  }
}
