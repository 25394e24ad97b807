/** tools/refactor-doc-paths.py: splitting Markdown into code and non-code, and rewriting
    paths outside the code. */
module MarkdownPaths {
  import opened Text

  datatype Segment = Segment(content: string, isCode: bool)

  const FENCE := "```"
  const TICK := "`"

  predicate NoTick(s: string) {
    '`' !in s
  }

  // ---------- splitting ----------

  /** The next code marker, from the next fence and the next backtick. */
  function NextCode(nextFence: int, nextInline: int): int {
    if nextFence == -1 then nextInline
    else if nextInline == -1 then nextFence
    else if nextFence < nextInline then nextFence else nextInline
  }

  function CodeEnd(text: string, marker: string): (end: int)
    requires |marker| <= |text|
    ensures end == -1 || |marker| <= end <= |text| - |marker|
  {
    Find(text, marker, |marker|)
  }

  /** Where the first segment of a text ends: behind the closing marker of code, before the
      next marker otherwise, and at the end of the text when there is none. */
  function Cut(text: string): (n: nat)
    requires text != ""
    ensures 0 < n <= |text|
  {
    if text[0] == '`' then
      var marker := if StartsWith(text, FENCE) then FENCE else TICK;
      var end := CodeEnd(text, marker);
      if end == -1 then |text| else end + |marker|
    else
      NextIsFirstTick(text);
      var next := NextCode(Find(text, FENCE, 0), Find(text, TICK, 0));
      if next == -1 then |text| else next
  }

  function Split(text: string): seq<Segment>
    decreases |text|
  {
    if text == "" then []
    else [Segment(text[..Cut(text)], text[0] == '`')] + Split(text[Cut(text)..])
  }

  lemma FindTickIsFirst(s: string, from: nat)
    requires from <= |s|
    ensures var r := Find(s, TICK, from);
            && (r != -1 ==> s[r] == '`')
            && forall k: nat | from <= k < (if r == -1 then |s| else r) :: s[k] != '`'
  {
    FindIsFirst(s, TICK, from);
    var r := Find(s, TICK, from);
    if r != -1 { assert s[r] == s[r..r + 1][0]; }
    forall k: nat | from <= k < (if r == -1 then |s| else r) ensures s[k] != '`' {
      assert !OccursAt(s, TICK, k);
      assert s[k..k + 1] == [s[k]];
    }
  }

  lemma {:induction false} FindNoTick(s: string, from: nat)
    requires from <= |s| && NoTick(s[from..])
    ensures Find(s, TICK, from) == -1
    decreases |s| - from
  {
    if from < |s| {
      assert s[from..][0] == s[from] && s[from..from + 1] == [s[from]];
      assert s[from + 1..] == s[from..][1..];
      FindNoTick(s, from + 1);
    }
  }

  /** The nearer of the next fence and the next backtick is always the next backtick. */
  lemma {:induction false} NextIsFirstTick(text: string)
    ensures NextCode(Find(text, FENCE, 0), Find(text, TICK, 0)) == Find(text, TICK, 0)
    ensures text != "" && text[0] != '`' && Find(text, TICK, 0) != -1 ==> 0 < Find(text, TICK, 0) < |text|
  {
    var f := Find(text, FENCE, 0);
    FindTickIsFirst(text, 0);
    FindIsFirst(text, FENCE, 0);
    if f != -1 { assert text[f] == text[f..f + 3][0]; }
  }

  lemma {:induction false} FindInSuffix(text: string, pat: string, i: nat, from: nat)
    requires i + from <= |text|
    ensures var r := Find(text[i..], pat, from);
            Find(text, pat, i + from) == if r == -1 then -1 else i + r
    decreases |text| - i - from
  {
    if i + from + |pat| <= |text| {
      assert text[i..][from..from + |pat|] == text[i + from..i + from + |pat|];
      if i + from < |text| { FindInSuffix(text, pat, i, from + 1); }
    }
  }

  lemma AppendOne<T>(a: seq<T>, x: T, b: seq<T>)
    ensures a + ([x] + b) == a + [x] + b
  {}

  lemma FenceStart(text: string)
    ensures StartsWith(text, FENCE) <==> |text| >= 3 && text[0] == '`' && text[1] == '`' && text[2] == '`'
  {}

  lemma FenceAt(text: string, i: nat)
    requires i <= |text|
    ensures StartsWith(text[i..], FENCE) <==> i + 3 <= |text| && text[i..i + 3] == FENCE
  {
    if i + 3 <= |text| { assert text[i..][..3] == text[i..i + 3]; }
  }

  /** The cut of what is left, found from the cursor, at a fence, at a backtick and elsewhere. */
  lemma {:induction false} CutAtFence(text: string, i: nat)
    requires i + 3 <= |text| && text[i..i + 3] == FENCE
    ensures var end := Find(text, FENCE, i + 3);
            text[i] == '`' && i + Cut(text[i..]) == if end == -1 then |text| else end + 3
  {
    FenceAt(text, i);
    FenceStart(text[i..]);
    FindInSuffix(text, FENCE, i, 3);
  }

  lemma {:induction false} CutAtTick(text: string, i: nat)
    requires i < |text| && text[i] == '`' && !(i + 3 <= |text| && text[i..i + 3] == FENCE)
    ensures var end := Find(text, TICK, i + 1); i + Cut(text[i..]) == if end == -1 then |text| else end + 1
  {
    FenceAt(text, i);
    FindInSuffix(text, TICK, i, 1);
  }

  lemma {:induction false} CutAtPlain(text: string, i: nat)
    requires i < |text| && text[i] != '`'
    ensures var next := NextCode(Find(text, FENCE, i), Find(text, TICK, i));
            i + Cut(text[i..]) == if next == -1 then |text| else next
  {
    FindInSuffix(text, FENCE, i, 0);
    FindInSuffix(text, TICK, i, 0);
  }

  /** One round of the loop, up to `end`. */
  lemma RoundTo(text: string, i: nat, end: nat, segments: seq<Segment>)
    requires i < end <= |text| && end == i + Cut(text[i..])
    ensures segments + Split(text[i..]) == segments + [Segment(text[i..end], text[i] == '`')] + Split(text[end..])
  {
    var rest := text[i..];
    assert rest[..end - i] == text[i..end] && rest[end - i..] == text[end..];
    var first, more := Segment(text[i..end], text[i] == '`'), Split(text[end..]);
    assert Split(rest) == [first] + more;
    AppendOne(segments, first, more);
  }

  /** The body of the loop: where the segment at `i` ends, and whether it is code. */
  method SegmentAt(text: string, i: nat) returns (end: nat, isCode: bool)
    requires i < |text|
    ensures end == i + Cut(text[i..]) && isCode == (text[i] == '`')
  {
    if i + 3 <= |text| && text[i..i + 3] == FENCE {
      CutAtFence(text, i);
      var close := Find(text, FENCE, i + 3);
      end, isCode := if close == -1 then |text| else close + 3, true;
    } else if text[i] == '`' {
      CutAtTick(text, i);
      var close := Find(text, TICK, i + 1);
      end, isCode := if close == -1 then |text| else close + 1, true;
    } else {
      CutAtPlain(text, i);
      var nextFence := Find(text, FENCE, i);
      var nextInline := Find(text, TICK, i);
      var nextCode := NextCode(nextFence, nextInline);
      end, isCode := if nextCode == -1 then |text| else nextCode, false;
    }
  }

  method SplitMarkdownSegments(text: string) returns (segments: seq<Segment>)
    ensures segments == Split(text)
  {
    segments := [];
    var i := 0;
    assert text[0..] == text;
    while i < |text|
      invariant 0 <= i <= |text|
      invariant segments + Split(text[i..]) == Split(text)
    {
      var end, isCode := SegmentAt(text, i);
      RoundTo(text, i, end, segments);
      segments := segments + [Segment(text[i..end], isCode)];
      i := end;
    }
    assert text[i..] == "" && segments + [] == segments;
  }

  // ---------- what a segmentation is ----------

  function Concat(segs: seq<Segment>): string {
    if segs == [] then "" else segs[0].content + Concat(segs[1..])
  }

  /** A fenced block: the fence after its opening one ends it. */
  predicate Fenced(s: string) {
    |s| >= 6 && StartsWith(s, FENCE) && CodeEnd(s, FENCE) == |s| - 3
  }

  /** Inline code: a backtick, no backtick, a backtick. */
  predicate InlineCode(s: string) {
    |s| >= 2 && s[0] == '`' && s[|s| - 1] == '`' && NoTick(s[1..|s| - 1])
  }

  /** Code that is not closed. */
  predicate OpenCode(s: string) {
    s != "" && s[0] == '`'
    && (if StartsWith(s, FENCE) then CodeEnd(s, FENCE) == -1 else NoTick(s[1..]))
  }

  /** The first segment may stand before the others. */
  predicate Precedes(s: Segment, rest: seq<Segment>) {
    if !s.isCode then s.content != "" && NoTick(s.content) && (rest == [] || rest[0].isCode)
    else
      || Fenced(s.content)
      || (InlineCode(s.content) && (|s.content| == 2 ==> rest == [] || !rest[0].isCode))
      || (OpenCode(s.content) && rest == [])
  }

  /** A segmentation, said without the cursor: non-code segments are not empty, hold no
      backtick and are never adjacent; each code segment is closed at its first closing
      marker, and only the last may be open; two backticks are never followed by a third. */
  predicate Segmentation(segs: seq<Segment>) {
    segs == [] || (Precedes(segs[0], segs[1..]) && Segmentation(segs[1..]))
  }

  lemma FindTickAt(s: string, from: nat, r: nat)
    requires from <= r < |s| && s[r] == '`' && NoTick(s[from..r])
    ensures Find(s, TICK, from) == r
  {
    assert s[r..r + 1] == TICK;
    forall k: nat | from <= k < r ensures !OccursAt(s, TICK, k) {
      assert s[k] == s[from..r][k - from];
      assert s[k..k + 1] == [s[k]];
    }
    FindUnique(s, TICK, from, r);
  }

  /** What comes after the end of an occurrence does not change where the first one is. */
  lemma {:induction false} FindInPrefix(s: string, tail: string, pat: string, from: nat)
    requires from <= |s| && pat != "" && Find(s, pat, from) != -1
    ensures Find(s + tail, pat, from) == Find(s, pat, from)
    decreases |s| - from
  {
    assert (s + tail)[from..from + |pat|] == s[from..from + |pat|];
    if s[from..from + |pat|] != pat { FindInPrefix(s, tail, pat, from + 1); }
  }

  // ---------- splitting gives the one segmentation ----------

  lemma CutFence(s: string, tail: string)
    requires Fenced(s)
    ensures Cut(s + tail) == |s| && (s + tail)[0] == '`'
  {
    assert (s + tail)[..3] == s[..3] == FENCE;
    FenceStart(s + tail);
    FindInPrefix(s, tail, FENCE, 3);
  }

  lemma CutInline(s: string, tail: string)
    requires InlineCode(s) && (|s| == 2 ==> tail == "" || tail[0] != '`')
    ensures Cut(s + tail) == |s| && (s + tail)[0] == '`'
  {
    var text := s + tail;
    FenceStart(text);
    assert |s| > 2 ==> s[1] == s[1..|s| - 1][0];
    assert text[1..|s| - 1] == s[1..|s| - 1];
    FindTickAt(text, 1, |s| - 1);
  }

  lemma CutOpen(s: string)
    requires OpenCode(s)
    ensures Cut(s) == |s|
  {
    if !StartsWith(s, FENCE) { FindNoTick(s, 1); }
  }

  lemma CutPlain(s: string, tail: string)
    requires s != "" && NoTick(s) && (tail == "" || tail[0] == '`')
    ensures Cut(s + tail) == |s| && (s + tail)[0] != '`'
  {
    var text := s + tail;
    NextIsFirstTick(text);
    assert text[0] == s[0];
    if tail == "" {
      assert text[0..] == s;
      FindNoTick(text, 0);
    } else {
      assert text[0..|s|] == s;
      FindTickAt(text, 0, |s|);
    }
  }

  lemma CodeStartsWithTick(segs: seq<Segment>)
    requires Segmentation(segs)
    ensures Concat(segs) == "" <==> segs == []
    ensures segs != [] ==> (Concat(segs)[0] == '`' <==> segs[0].isCode)
  {
    if segs != [] {
      assert Precedes(segs[0], segs[1..]);
      assert segs[0].content != "" && Concat(segs)[0] == segs[0].content[0];
      if Fenced(segs[0].content) { assert segs[0].content[0] == FENCE[0]; }
    }
  }

  /** Whatever may stand before the others is what the first round cuts off. */
  lemma CutFirst(s: Segment, rest: seq<Segment>)
    requires Precedes(s, rest) && Segmentation(rest)
    ensures var text := s.content + Concat(rest);
            text != "" && Cut(text) == |s.content| && (text[0] == '`' <==> s.isCode)
  {
    var tail := Concat(rest);
    CodeStartsWithTick(rest);
    if !s.isCode {
      CutPlain(s.content, tail);
    } else if Fenced(s.content) {
      CutFence(s.content, tail);
    } else if InlineCode(s.content) && (|s.content| == 2 ==> rest == [] || !rest[0].isCode) {
      CutInline(s.content, tail);
    } else {
      CutOpen(s.content);
      assert s.content + "" == s.content;
    }
  }

  /** There is no other segmentation of a text than the one computed. */
  lemma {:induction false} SegmentationIsSplit(segs: seq<Segment>)
    requires Segmentation(segs)
    ensures Split(Concat(segs)) == segs
  {
    if segs != [] {
      var text, n := Concat(segs), |segs[0].content|;
      SegmentationIsSplit(segs[1..]);
      CutFirst(segs[0], segs[1..]);
      assert text[..n] == segs[0].content && text[n..] == Concat(segs[1..]);
      assert segs == [segs[0]] + segs[1..];
    }
  }

  /** What the first round cuts off may stand before the rest. */
  lemma FirstPrecedes(text: string, rest: seq<Segment>)
    requires text != "" && Segmentation(rest) && Concat(rest) == text[Cut(text)..]
    ensures Precedes(Segment(text[..Cut(text)], text[0] == '`'), rest)
  {
    CodeStartsWithTick(rest);
    if text[0] == '`' {
      var marker := if StartsWith(text, FENCE) then FENCE else TICK;
      if CodeEnd(text, marker) == -1 {
        assert text[..|text|] == text;
        FindTickIsFirst(text, 1);
      } else {
        FenceStart(text);
        if marker == FENCE { FenceIsClosed(text); } else { InlineIsClosed(text); }
      }
    } else {
      NextIsFirstTick(text);
      FindTickIsFirst(text, 0);
    }
  }

  /** Splitting loses nothing and gives a segmentation. */
  lemma {:induction false} SplitIsSegmentation(text: string)
    ensures Concat(Split(text)) == text && Segmentation(Split(text))
    decreases |text|
  {
    if text != "" {
      var rest := Split(text[Cut(text)..]);
      SplitIsSegmentation(text[Cut(text)..]);
      CutPrepends(text, rest);
    }
  }

  lemma CutPrepends(text: string, rest: seq<Segment>)
    requires text != "" && Segmentation(rest) && Concat(rest) == text[Cut(text)..]
    ensures var segs := [Segment(text[..Cut(text)], text[0] == '`')] + rest;
            Segmentation(segs) && Concat(segs) == text
  {
    FirstPrecedes(text, rest);
    Prepend(Segment(text[..Cut(text)], text[0] == '`'), rest);
    assert text[..Cut(text)] + text[Cut(text)..] == text;
  }

  lemma Prepend(first: Segment, rest: seq<Segment>)
    requires Precedes(first, rest) && Segmentation(rest)
    ensures Segmentation([first] + rest) && Concat([first] + rest) == first.content + Concat(rest)
  {
    assert ([first] + rest)[1..] == rest;
  }

  lemma FenceIsClosed(text: string)
    requires StartsWith(text, FENCE) && CodeEnd(text, FENCE) != -1
    ensures Fenced(text[..CodeEnd(text, FENCE) + 3])
  {
    var head := text[..CodeEnd(text, FENCE) + 3];
    assert head[..3] == text[..3];
    FindStops(text, FENCE, 3);
  }

  lemma InlineIsClosed(text: string)
    requires text != "" && text[0] == '`' && CodeEnd(text, TICK) != -1
    ensures InlineCode(text[..CodeEnd(text, TICK) + 1])
  {
    var end := CodeEnd(text, TICK);
    FindTickIsFirst(text, 1);
    assert text[..end + 1][1..end] == text[1..end];
  }

  /** Cutting the text off behind the first occurrence does not move it. */
  lemma {:induction false} FindStops(text: string, pat: string, from: nat)
    requires from <= |text| && pat != "" && Find(text, pat, from) != -1
    ensures var r := Find(text, pat, from); Find(text[..r + |pat|], pat, from) == r
    decreases |text| - from
  {
    var head := text[..Find(text, pat, from) + |pat|];
    assert head[from..from + |pat|] == text[from..from + |pat|];
    if text[from..from + |pat|] != pat { FindStops(text, pat, from + 1); }
  }

  /** The segmentation of a text is what splitting computes, and nothing else is. */
  lemma SplitIsTheSegmentation(text: string, segs: seq<Segment>)
    ensures Segmentation(segs) && Concat(segs) == text <==> segs == Split(text)
  {
    SplitIsSegmentation(text);
    if Segmentation(segs) && Concat(segs) == text { SegmentationIsSplit(segs); }
  }

  // ---------- rewriting ----------

  datatype Rule = Rule(pattern: string, replacement: string)

  /** The rules a rewriting may use: they leave something, and it is never code. */
  predicate RuleOk(rule: Rule) {
    |rule.pattern| > 0 && |rule.replacement| > 0 && NoTick(rule.replacement)
  }

  predicate RulesOk(rules: seq<Rule>) {
    forall i | 0 <= i < |rules| :: RuleOk(rules[i])
  }

  /** `re.sub` with a literal pattern: left to right, without overlaps. */
  function ReplaceAll(s: string, rule: Rule): string
    requires rule.pattern != ""
    decreases |s|
  {
    if s == "" then ""
    else if StartsWith(s, rule.pattern) then rule.replacement + ReplaceAll(s[|rule.pattern|..], rule)
    else [s[0]] + ReplaceAll(s[1..], rule)
  }

  function RewriteText(s: string, rules: seq<Rule>): string
    requires RulesOk(rules)
  {
    if rules == [] then s else ReplaceAll(RewriteText(s, rules[..|rules| - 1]), rules[|rules| - 1])
  }

  function RewriteSegment(s: Segment, rules: seq<Rule>): Segment
    requires RulesOk(rules)
  {
    if s.isCode then s else Segment(RewriteText(s.content, rules), false)
  }

  function RewriteSegments(segs: seq<Segment>, rules: seq<Rule>): seq<Segment>
    requires RulesOk(rules)
  {
    if segs == [] then [] else [RewriteSegment(segs[0], rules)] + RewriteSegments(segs[1..], rules)
  }

  function Apply(text: string, rules: seq<Rule>): string
    requires RulesOk(rules)
  {
    Concat(RewriteSegments(Split(text), rules))
  }

  method ApplyReplacements(text: string, rules: seq<Rule>) returns (result: string)
    requires RulesOk(rules)
    ensures result == Apply(text, rules)
  {
    var segments := SplitMarkdownSegments(text);
    result := "";
    assert segments[0..] == segments;
    for i := 0 to |segments|
      invariant result + Concat(RewriteSegments(segments[i..], rules)) == Apply(text, rules)
    {
      var modified := segments[i].content;
      if !segments[i].isCode {
        for r := 0 to |rules|
          invariant modified == RewriteText(segments[i].content, rules[..r])
        {
          assert rules[..r + 1][..r] == rules[..r];
          modified := ReplaceAll(modified, rules[r]);
        }
        assert rules[..|rules|] == rules;
      }
      assert segments[i..][1..] == segments[i + 1..];
      assert RewriteSegments(segments[i..], rules)[0].content == modified;
      assert RewriteSegments(segments[i..], rules)[1..] == RewriteSegments(segments[i + 1..], rules);
      result := result + modified;
    }
  }

  /** Every piece ends where the pattern first occurs, the last one has no occurrence. */
  ghost predicate Pieces(pieces: seq<string>, p: string)
    requires p != ""
  {
    && pieces != []
    && Find(pieces[|pieces| - 1], p, 0) == -1
    && forall i | 0 <= i < |pieces| - 1 :: EndsAtFirst(pieces[i], p)
  }

  ghost predicate EndsAtFirst(piece: string, p: string) {
    Find(piece + p, p, 0) == |piece|
  }

  /** What a replacement is, said with the pieces between the occurrences: the text is the
      pieces joined with the pattern, the result is the pieces joined with the replacement. */
  lemma {:induction false} ReplaceAllPieces(s: string, rule: Rule) returns (pieces: seq<string>)
    requires rule.pattern != ""
    ensures Pieces(pieces, rule.pattern)
    ensures Join(pieces, rule.pattern) == s && Join(pieces, rule.replacement) == ReplaceAll(s, rule)
    decreases |s|
  {
    var p, r := rule.pattern, rule.replacement;
    if s == "" {
      pieces := [""];
    } else if StartsWith(s, p) {
      assert s == p + s[|p|..];
      var rest := ReplaceAllPieces(s[|p|..], rule);
      pieces := [""] + rest;
      StartNewPiece(rest, p);
      StartNewPiece(rest, r);
      MorePieces("", rest, p);
    } else {
      assert s == [s[0]] + s[1..];
      var rest := ReplaceAllPieces(s[1..], rule);
      pieces := [[s[0]] + rest[0]] + rest[1..];
      PrependToFirst(s[0], rest, p);
      PrependToFirst(s[0], rest, r);
      LongerFirstPiece(s, rest, p);
    }
  }

  lemma {:induction false} LongerFirstPiece(s: string, rest: seq<string>, p: string)
    requires s != "" && !StartsWith(s, p) && p != "" && Pieces(rest, p) && Join(rest, p) == s[1..]
    ensures Pieces([[s[0]] + rest[0]] + rest[1..], p)
  {
    if |rest| > 1 {
      FirstPieceFits(rest, p);
      PieceGrows(s, rest[0], p);
      TailPieces(rest, p);
      MorePieces([s[0]] + rest[0], rest[1..], p);
    } else {
      FindNextIn(s, rest[0], p);
    }
  }

  lemma TailPieces(rest: seq<string>, p: string)
    requires p != "" && Pieces(rest, p) && |rest| > 1
    ensures Pieces(rest[1..], p)
  {
    forall i | 0 <= i < |rest[1..]| - 1 ensures EndsAtFirst(rest[1..][i], p) {
      assert rest[1..][i] == rest[i + 1];
    }
  }

  lemma MorePieces(first: string, rest: seq<string>, p: string)
    requires p != "" && Pieces(rest, p) && EndsAtFirst(first, p)
    ensures Pieces([first] + rest, p)
  {
    var all := [first] + rest;
    assert all[|all| - 1] == rest[|rest| - 1];
    forall i | 0 <= i < |all| - 1 ensures EndsAtFirst(all[i], p) {
      if i > 0 { assert all[i] == rest[i - 1]; }
    }
  }

  lemma StartNewPiece(pieces: seq<string>, sep: string)
    requires pieces != []
    ensures Join([""] + pieces, sep) == sep + Join(pieces, sep)
    ensures EndsAtFirst("", sep)
  {
    assert ([""] + pieces)[1..] == pieces;
    assert "" + sep == sep && sep[0..|sep|] == sep;
  }

  lemma PrependToFirst(c: char, pieces: seq<string>, sep: string)
    requires pieces != []
    ensures Join([[c] + pieces[0]] + pieces[1..], sep) == [c] + Join(pieces, sep)
  {
    var longer := [[c] + pieces[0]] + pieces[1..];
    assert longer[1..] == pieces[1..];
    if |pieces| > 1 {
      assert [c] + pieces[0] + sep + Join(pieces[1..], sep) == [c] + (pieces[0] + sep + Join(pieces[1..], sep));
    }
  }

  /** Where the pattern does not start, its first occurrence is one further on. */
  lemma FindNext(head: string, p: string)
    requires head != "" && p != "" && !StartsWith(head, p)
    ensures Find(head, p, 0) == if Find(head[1..], p, 0) == -1 then -1 else 1 + Find(head[1..], p, 0)
  {
    FindInSuffix(head, p, 1, 0);
    assert |p| <= |head| ==> head[0..|p|] == head[..|p|];
  }

  lemma PieceGrows(s: string, piece: string, p: string)
    requires s != "" && !StartsWith(s, p) && p != "" && piece + p <= s[1..]
    requires EndsAtFirst(piece, p)
    ensures EndsAtFirst([s[0]] + piece, p)
  {
    FindNextIn(s, piece + p, p);
    assert [s[0]] + (piece + p) == ([s[0]] + piece) + p;
  }

  lemma FirstPieceFits(pieces: seq<string>, p: string)
    requires |pieces| > 1
    ensures pieces[0] + p <= Join(pieces, p)
  {
    var tail := Join(pieces[1..], p);
    assert Join(pieces, p) == pieces[0] + p + tail;
  }

  lemma FindNextIn(s: string, tail: string, p: string)
    requires s != "" && p != "" && !StartsWith(s, p) && tail <= s[1..]
    ensures Find([s[0]] + tail, p, 0) == if Find(tail, p, 0) == -1 then -1 else 1 + Find(tail, p, 0)
  {
    var head := [s[0]] + tail;
    assert head[1..] == tail;
    assert !StartsWith(head, p) by {
      assert head == s[..|head|];
      assert |p| <= |head| ==> head[..|p|] == s[..|p|];
    }
    FindNext(head, p);
  }

  lemma {:induction false} ReplaceAllKeeps(s: string, rule: Rule)
    requires RuleOk(rule)
    requires s != "" && NoTick(s)
    ensures ReplaceAll(s, rule) != "" && NoTick(ReplaceAll(s, rule))
    decreases |s|
  {
    var rest := if StartsWith(s, rule.pattern) then s[|rule.pattern|..] else s[1..];
    if rest != "" { ReplaceAllKeeps(rest, rule); }
  }

  lemma {:induction false} RewriteTextKeeps(s: string, rules: seq<Rule>)
    requires RulesOk(rules)
    requires s != "" && NoTick(s)
    ensures RewriteText(s, rules) != "" && NoTick(RewriteText(s, rules))
  {
    if rules != [] {
      RewriteTextKeeps(s, rules[..|rules| - 1]);
      ReplaceAllKeeps(RewriteText(s, rules[..|rules| - 1]), rules[|rules| - 1]);
    }
  }

  lemma {:induction false} RewriteKeepsSegmentation(segs: seq<Segment>, rules: seq<Rule>)
    requires RulesOk(rules)
    requires Segmentation(segs)
    ensures Segmentation(RewriteSegments(segs, rules))
  {
    if segs != [] {
      if !segs[0].isCode { RewriteTextKeeps(segs[0].content, rules); }
      RewriteKeepsSegmentation(segs[1..], rules);
    }
  }

  /** Splitting commutes with rewriting: the rewritten text has the same segments in the
      same places, code unchanged and non-code rewritten. */
  lemma SplitCommutesWithRewriting(text: string, rules: seq<Rule>)
    requires RulesOk(rules)
    ensures Split(Apply(text, rules)) == RewriteSegments(Split(text), rules)
  {
    SplitIsSegmentation(text);
    RewriteKeepsSegmentation(Split(text), rules);
    SegmentationIsSplit(RewriteSegments(Split(text), rules));
  }

  lemma {:induction false} RewriteSegmentsAt(segs: seq<Segment>, rules: seq<Rule>)
    requires RulesOk(rules)
    ensures |RewriteSegments(segs, rules)| == |segs|
    ensures forall i | 0 <= i < |segs| :: RewriteSegments(segs, rules)[i] == RewriteSegment(segs[i], rules)
  {
    if segs != [] { RewriteSegmentsAt(segs[1..], rules); }
  }

  /** Segment by segment: same number, same flags, code segments identical. */
  lemma CodeSurvives(text: string, rules: seq<Rule>)
    requires RulesOk(rules)
    ensures var before, after := Split(text), Split(Apply(text, rules));
            && |after| == |before|
            && forall i | 0 <= i < |before| ::
                 after[i].isCode == before[i].isCode
                 && after[i].content ==
                    if before[i].isCode then before[i].content else RewriteText(before[i].content, rules)
  {
    SplitCommutesWithRewriting(text, rules);
    RewriteSegmentsAt(Split(text), rules);
  }
}
