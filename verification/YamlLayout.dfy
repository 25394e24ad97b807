/** What the parser does not look at: how far the whole document is indented, and blank and
    comment lines. */
module YamlLayout {
  import opened Text
  import opened Yaml

  function ShiftLines(lines: seq<Line>, k: nat): (r: seq<Line>)
    ensures |r| == |lines|
    ensures forall i | 0 <= i < |r| :: r[i] == Line(lines[i].indent + k, lines[i].form)
  {
    seq(|lines|, i requires 0 <= i < |lines| => Line(lines[i].indent + k, lines[i].form))
  }

  lemma ShiftTail(lines: seq<Line>, k: nat)
    requires lines != []
    ensures ShiftLines(lines, k)[1..] == ShiftLines(lines[1..], k)
  {}

  lemma {:induction false} NodeShift(rest: seq<Line>, indent: nat, k: nat)
    ensures var (v, rest') := Node(rest, indent);
            Node(ShiftLines(rest, k), indent + k) == (v, ShiftLines(rest', k))
    decreases |rest|, 2
  {
    if rest != [] && rest[0].indent >= indent {
      if rest[0].Dash() {
        SequenceShift(rest, rest[0].indent, [], k);
      } else {
        MappingShift(rest, rest[0].indent, [], k);
      }
    }
  }

  lemma {:induction false} MappingShift(rest: seq<Line>, indent: nat, acc: seq<Entry>, k: nat)
    ensures var (d, rest') := Mapping(rest, indent, acc);
            Mapping(ShiftLines(rest, k), indent + k, acc) == (d, ShiftLines(rest', k))
    decreases |rest|, 1
  {
    if rest != [] && rest[0].indent == indent {
      ShiftTail(rest, k);
      match rest[0].form
      case Other => MappingShift(rest[1..], indent, acc, k);
      case KeyValue(key, val) => MappingShift(rest[1..], indent, Put(acc, key, val), k);
      case Opens(key) =>
        var (child, rest') := Node(rest[1..], indent + 2);
        NodeShift(rest[1..], indent + 2, k);
        MappingShift(rest', indent, Put(acc, key, if child.Null? then Dict([]) else child), k);
      case _ =>
    }
  }

  lemma {:induction false} SequenceShift(rest: seq<Line>, indent: nat, acc: seq<Value>, k: nat)
    ensures var (s, rest') := Sequence(rest, indent, acc);
            Sequence(ShiftLines(rest, k), indent + k, acc) == (s, ShiftLines(rest', k))
    decreases |rest|, 1
  {
    if rest != [] && rest[0].indent >= indent {
      ShiftTail(rest, k);
      match rest[0].form
      case DashNode =>
        var (child, rest') := Node(rest[1..], indent + 2);
        NodeShift(rest[1..], indent + 2, k);
        SequenceShift(rest', indent, acc + [child], k);
      case DashEntry(key, val) =>
        var (entries, rest') := Absorb(rest[1..], indent, [Entry(key, val)]);
        AbsorbShift(rest[1..], indent, [Entry(key, val)], k);
        SequenceShift(rest', indent, acc + [Dict(entries)], k);
      case DashScalar(val) => SequenceShift(rest[1..], indent, acc + [val], k);
      case _ =>
    }
  }

  lemma {:induction false} AbsorbShift(rest: seq<Line>, indent: nat, acc: seq<Entry>, k: nat)
    ensures var (d, rest') := Absorb(rest, indent, acc);
            Absorb(ShiftLines(rest, k), indent + k, acc) == (d, ShiftLines(rest', k))
    decreases |rest|, 0
  {
    if rest != [] && rest[0].indent > indent {
      ShiftTail(rest, k);
      match rest[0].form
      case KeyValue(key, val) => AbsorbShift(rest[1..], indent, Put(acc, key, val), k);
      case Opens(key) =>
        var (child, rest') := Node(rest[1..], rest[0].indent + 2);
        NodeShift(rest[1..], rest[0].indent + 2, k);
        AbsorbShift(rest', indent, Put(acc, key, if Falsy(child) then Dict([]) else child), k);
      case _ =>
    }
  }

  // ---------- text ----------

  function IndentBy(lines: seq<string>, k: nat): seq<string> {
    if lines == [] then [] else [Pad(k) + lines[0]] + IndentBy(lines[1..], k)
  }

  lemma {:induction false} TrimRightAfter(pad: string, s: string)
    requires exists i | 0 <= i < |s| :: !IsSpace(s[i])
    ensures TrimRight(pad + s, IsSpace) == pad + TrimRight(s, IsSpace)
    decreases |s|
  {
    var n := |s| - 1;
    if IsSpace(s[n]) {
      assert (pad + s)[..|pad + s| - 1] == pad + s[..n];
      var i :| 0 <= i < |s| && !IsSpace(s[i]);
      assert !IsSpace(s[..n][i]);
      TrimRightAfter(pad, s[..n]);
    }
  }

  /** Indenting a line changes its indentation and nothing else the parser looks at. */
  lemma {:induction false} IndentedLine(line: string, k: nat)
    ensures Ignored(Pad(k) + line) == Ignored(line)
    ensures !Ignored(line) ==>
              var kept := TrimRight(line, IsSpace);
              TrimRight(Pad(k) + line, IsSpace) == Pad(k) + kept
              && Read(Pad(k) + kept) == Line(Read(kept).indent + k, Read(kept).form)
  {
    TrimPad(k, line, IsSpace);
    if !Ignored(line) {
      var kept := TrimRight(line, IsSpace);
      TrimLeftFacts(line, IsSpace);
      var body := TrimLeft(line, IsSpace);
      assert line[|line| - |body|] == body[0];
      TrimRightAfter(Pad(k), line);
      TrimPad(k, kept, IsBlank);
    }
  }

  /** What the constructor makes of one line. */
  function Kept(line: string): seq<Line> {
    if Ignored(line) then [] else [Read(TrimRight(line, IsSpace))]
  }

  lemma KeepCons(lines: seq<string>)
    requires lines != []
    ensures ReadAll(Keep(lines)) == Kept(lines[0]) + ReadAll(Keep(lines[1..]))
  {
    var first := if Ignored(lines[0]) then [] else [TrimRight(lines[0], IsSpace)];
    MapConcat(Read, first, Keep(lines[1..]));
    assert Map(Read, first) == Kept(lines[0]);
  }

  lemma {:induction false} IndentedKeep(lines: seq<string>, k: nat)
    ensures ReadAll(Keep(IndentBy(lines, k))) == ShiftLines(ReadAll(Keep(lines)), k)
  {
    if lines != [] {
      var indented := IndentBy(lines, k);
      assert indented[0] == Pad(k) + lines[0] && indented[1..] == IndentBy(lines[1..], k);
      KeepCons(indented);
      IndentedKept(lines[0], k);
      IndentedKeep(lines[1..], k);
      ShiftConcat(Kept(lines[0]), ReadAll(Keep(lines[1..])), k);
      KeepCons(lines);
    }
  }

  lemma IndentedKept(line: string, k: nat)
    ensures Kept(Pad(k) + line) == ShiftLines(Kept(line), k)
  {
    IndentedLine(line, k);
    KeptShifted(line, Pad(k) + line, k);
  }

  lemma {:induction false} KeptShifted(line: string, indented: string, k: nat)
    requires Ignored(indented) == Ignored(line)
    requires !Ignored(line) ==>
               var read := Read(TrimRight(line, IsSpace));
               Read(TrimRight(indented, IsSpace)) == Line(read.indent + k, read.form)
    ensures Kept(indented) == ShiftLines(Kept(line), k)
  {
    ShiftAtMostOne(Kept(line), Kept(indented), k);
  }

  lemma ShiftAtMostOne(lines: seq<Line>, shifted: seq<Line>, k: nat)
    requires |lines| == |shifted| <= 1
    requires lines != [] ==> shifted[0] == Line(lines[0].indent + k, lines[0].form)
    ensures shifted == ShiftLines(lines, k)
  {}

  lemma ShiftConcat(a: seq<Line>, b: seq<Line>, k: nat)
    ensures ShiftLines(a + b, k) == ShiftLines(a, k) + ShiftLines(b, k)
  {}

  lemma {:induction false} IndentByNoBreak(lines: seq<string>, k: nat)
    requires forall i | 0 <= i < |lines| :: NoLineBreak(lines[i])
    ensures |IndentBy(lines, k)| == |lines|
    ensures forall i | 0 <= i < |lines| :: NoLineBreak(IndentBy(lines, k)[i])
  {
    PadFacts(k);
    if lines != [] { IndentByNoBreak(lines[1..], k); }
  }

  /** Indenting every line by the same number of spaces does not change the value, however the
      lines of the two texts end. */
  lemma {:induction false} IndentInvariance(text: string, indented: string, k: nat)
    requires SplitLines(indented) == IndentBy(SplitLines(text), k)
    ensures Parse(indented) == Parse(text)
  {
    IndentedKeep(SplitLines(text), k);
    var all := ReadAll(Load(text));
    NodeShift(all, 0, k);
    NodeAtOrBelow(ShiftLines(all, k), k);
  }

  /** A document indented by `k` is read the same from indentation 0. */
  lemma NodeAtOrBelow(lines: seq<Line>, k: nat)
    requires lines != [] ==> lines[0].indent >= k
    ensures Node(lines, k) == Node(lines, 0)
  {}

  /** For every text there is such an indented one. */
  lemma {:induction false} IndentedText(text: string, k: nat)
    ensures Parse(Unlines(IndentBy(SplitLines(text), k))) == Parse(text)
  {
    var lines := SplitLines(text);
    SplitLinesPieces(text);
    IndentByNoBreak(lines, k);
    SplitLinesUnlines(IndentBy(lines, k));
    IndentInvariance(text, Unlines(IndentBy(lines, k)), k);
  }

  /** The lines of the one are those of the other with ignored lines interspersed anywhere. */
  predicate Interspersed(longer: seq<string>, lines: seq<string>) {
    if longer == [] then lines == []
    else
      || (Ignored(longer[0]) && Interspersed(longer[1..], lines))
      || (lines != [] && longer[0] == lines[0] && Interspersed(longer[1..], lines[1..]))
  }

  lemma {:induction false} InterspersedKeep(longer: seq<string>, lines: seq<string>)
    requires Interspersed(longer, lines)
    ensures Keep(longer) == Keep(lines)
  {
    if longer != [] {
      if Ignored(longer[0]) && Interspersed(longer[1..], lines) {
        InterspersedKeep(longer[1..], lines);
        assert [] + Keep(longer[1..]) == Keep(longer[1..]);
      } else {
        InterspersedKeep(longer[1..], lines[1..]);
      }
    }
  }

  /** Blank and comment lines put anywhere, any number of them, do not change the value,
      however the lines of the two texts end. */
  lemma {:induction false} CommentInvariance(text: string, longer: string)
    requires Interspersed(SplitLines(longer), SplitLines(text))
    ensures Parse(longer) == Parse(text)
  {
    InterspersedKeep(SplitLines(longer), SplitLines(text));
  }

  lemma {:induction false} ItselfInterspersed(lines: seq<string>)
    ensures Interspersed(lines, lines)
  {
    if lines != [] { ItselfInterspersed(lines[1..]); }
  }

  /** The lines with one more at position `i`. */
  function InsertLine(lines: seq<string>, i: nat, line: string): seq<string>
    requires i <= |lines|
  {
    if i == 0 then [line] + lines else [lines[0]] + InsertLine(lines[1..], i - 1, line)
  }

  lemma {:induction false} OneInterspersed(lines: seq<string>, i: nat, comment: string)
    requires i <= |lines| && Ignored(comment)
    requires NoLineBreak(comment) && forall j | 0 <= j < |lines| :: NoLineBreak(lines[j])
    ensures var longer := InsertLine(lines, i, comment);
            Interspersed(longer, lines) && forall j | 0 <= j < |longer| :: NoLineBreak(longer[j])
  {
    var longer := InsertLine(lines, i, comment);
    if i == 0 {
      assert longer[1..] == lines;
      ItselfInterspersed(lines);
    } else {
      assert longer[1..] == InsertLine(lines[1..], i - 1, comment);
      OneInterspersed(lines[1..], i - 1, comment);
    }
  }

  /** For every text and every place in it there is such a longer one. */
  lemma {:induction false} CommentedText(text: string, i: nat, comment: string)
    requires i <= |SplitLines(text)| && NoLineBreak(comment) && Ignored(comment)
    ensures Parse(Unlines(InsertLine(SplitLines(text), i, comment))) == Parse(text)
  {
    var longer := InsertLine(SplitLines(text), i, comment);
    SplitLinesPieces(text);
    OneInterspersed(SplitLines(text), i, comment);
    SplitLinesUnlines(longer);
    CommentInvariance(text, Unlines(longer));
  }
}
