/** The `.env` reader of ConfigManager.cc: the line loop that trims, skips and splits, and the
    round trip of a printed file. */
module DotEnv {
  import opened Text
  import ConfigOverrides

  predicate IsLeadBlank(c: char) {
    c == ' ' || c == '\t'
  }

  predicate IsTailBlank(c: char) {
    c == ' ' || c == '\t' || c == '\r'
  }

  /** `std::getline` on line feeds: a line feed at the end starts no further line. */
  function GetLines(text: string): seq<string> {
    if text == "" then []
    else
      var i := IndexOf(text, c => c == '\n');
      if i == |text| then [text] else [text[..i]] + GetLines(text[i + 1..])
  }

  /** Surrounding quotes, single or double, are removed. */
  function Unquote(value: string): string {
    var n := |value| - 1;
    if n >= 1 && ((value[0] == '"' && value[n] == '"') || (value[0] == '\'' && value[n] == '\'')) then value[1..n]
    else value
  }

  /** The line without its outer blanks. */
  function TrimLine(raw: string): string {
    TrimRight(TrimLeft(raw, IsLeadBlank), IsTailBlank)
  }

  /** The key and the value on either side of the equals sign at `eq`. */
  function SplitSetting(line: string, eq: nat): Option<(string, string)>
    requires eq < |line|
  {
    var key := TrimRight(line[..eq], IsLeadBlank);
    if key == "" then None else Some((key, Unquote(TrimLeft(line[eq + 1..], IsLeadBlank))))
  }

  function IndexOfEquals(line: string): (eq: nat)
    ensures eq <= |line|
  {
    IndexOf(line, c => c == '=')
  }

  /** What one line defines. */
  function ReadLine(raw: string): Option<(string, string)> {
    var line := TrimLine(raw);
    if line == "" || line[0] == '#' || IndexOfEquals(line) == |line| then None
    else SplitSetting(line, IndexOfEquals(line))
  }

  function ReadLines(lines: seq<string>): map<string, string> {
    if lines == [] then map[]
    else
      var before := ReadLines(lines[..|lines| - 1]);
      match ReadLine(lines[|lines| - 1])
      case None => before
      case Some((key, value)) => before[key := value]
  }

  function Load(text: string): map<string, string> {
    ReadLines(GetLines(text))
  }

  // ---------- the loops ----------

  /** The two trimming loops over a string that shrinks in place. */
  method Trim(s: string, front: char -> bool, back: char -> bool) returns (line: string)
    ensures line == TrimRight(TrimLeft(s, front), back)
  {
    line := s;
    while line != "" && front(line[0])
      invariant TrimLeft(line, front) == TrimLeft(s, front)
      decreases |line|
    {
      line := line[1..];
    }
    ghost var rest := line;
    while line != "" && back(line[|line| - 1])
      invariant TrimRight(line, back) == TrimRight(rest, back)
      decreases |line|
    {
      line := line[..|line| - 1];
    }
  }

  predicate Never(c: char) {
    false
  }

  /** The body of the line loop: the setting the line makes, if it makes one. */
  method ParseLine(raw: string) returns (setting: Option<(string, string)>)
    ensures setting == ReadLine(raw)
  {
    var line := Trim(raw, IsLeadBlank, IsTailBlank);
    if line == "" || line[0] == '#' { return None; }
    var eqPos := IndexOfEquals(line);
    if eqPos == |line| { return None; }
    var key := Trim(line[..eqPos], Never, IsLeadBlank);
    var value := Trim(line[eqPos + 1..], IsLeadBlank, Never);
    value := Unquote(value);
    setting := if key == "" then None else Some((key, value));
  }

  method LoadDotEnv(text: string) returns (vars: map<string, string>)
    ensures vars == Load(text)
  {
    vars := map[];
    var lines := GetLines(text);
    for n := 0 to |lines|
      invariant vars == ReadLines(lines[..n])
    {
      assert lines[..n + 1][..n] == lines[..n];
      var setting := ParseLine(lines[n]);
      if setting.Some? {
        vars := vars[setting.value.0 := setting.value.1];
      }
    }
    assert lines[..|lines|] == lines;
  }

  // ---------- writing and reading back ----------

  datatype Style = Double | Single | Bare

  /** The blanks around a key and a value, and the quotes. */
  datatype Layout = Layout(lead: string, gap: string, lag: string, style: Style, tail: string)

  /** A line of the file: a setting, or one that sets nothing. */
  datatype Item =
    | Setting(key: string, value: string, layout: Layout)
    | Skipped(raw: string)

  const CANONICAL := Layout("", "", "", Double, "")

  function Quoted(value: string, style: Style): string {
    match style
    case Double => "\"" + value + "\""
    case Single => "'" + value + "'"
    case Bare => value
  }

  function WriteLine(s: Item): string {
    match s
    case Setting(key, value, l) => l.lead + (key + (l.gap + ("=" + (l.lag + (Quoted(value, l.style) + l.tail)))))
    case Skipped(raw) => raw
  }

  function WriteLines(items: seq<Item>): (r: seq<string>)
    ensures |r| == |items|
  {
    Map(WriteLine, items)
  }

  function Write(items: seq<Item>): string {
    Unlines(WriteLines(items))
  }

  /** The last of two settings of a key wins. */
  function Meaning(items: seq<Item>): map<string, string> {
    if items == [] then map[]
    else
      var before := Meaning(items[..|items| - 1]);
      match items[|items| - 1]
      case Setting(key, value, _) => before[key := value]
      case Skipped(_) => before
  }

  predicate KeyOk(key: string) {
    && key != "" && key[0] != '#' && '=' !in key
    && key[0] !in " \t" && key[|key| - 1] !in " \t"
  }

  predicate AllOf(s: string, chars: string) {
    forall i | 0 <= i < |s| :: s[i] in chars
  }

  predicate AllBlank(s: string, blank: char -> bool) {
    forall i | 0 <= i < |s| :: blank(s[i])
  }

  /** A value without quotes: no outer blanks, and no quotes that would be taken off. */
  predicate BareOk(value: string) {
    value != "" ==>
      && value[0] !in " \t" && value[|value| - 1] !in " \t\r"
      && (|value| >= 2 && (value[0] == '"' || value[0] == '\'') ==> value[|value| - 1] != value[0])
  }

  predicate LayoutOk(l: Layout) {
    AllOf(l.lead, " \t") && AllOf(l.gap, " \t") && AllOf(l.lag, " \t") && AllOf(l.tail, " \t\r")
  }

  lemma BlankChars(c: char)
    ensures IsLeadBlank(c) <==> c in " \t"
    ensures IsTailBlank(c) <==> c in " \t\r"
  {
    assert " \t"[0] == ' ' && " \t"[1] == '\t' && " \t\r"[0] == ' ' && " \t\r"[1] == '\t' && " \t\r"[2] == '\r';
  }

  lemma BlankStrings(s: string)
    ensures AllOf(s, " \t") <==> AllBlank(s, IsLeadBlank)
    ensures AllOf(s, " \t\r") <==> AllBlank(s, IsTailBlank)
    ensures s != "" ==> (IsLeadBlank(s[0]) <==> s[0] in " \t")
    ensures s != "" ==> (IsLeadBlank(s[|s| - 1]) <==> s[|s| - 1] in " \t")
    ensures s != "" ==> (IsTailBlank(s[|s| - 1]) <==> s[|s| - 1] in " \t\r")
  {
    forall i | 0 <= i < |s|
      ensures (IsLeadBlank(s[i]) <==> s[i] in " \t") && (IsTailBlank(s[i]) <==> s[i] in " \t\r")
    {
      BlankChars(s[i]);
    }
  }

  /** The line sets nothing: it has no equals sign, or the first thing on it is one or `#`. */
  predicate SetsNothing(raw: string) {
    || '=' !in raw
    || exists i | 0 <= i < |raw| ::
         (raw[i] == '#' || raw[i] == '=') && forall j | 0 <= j < i :: raw[j] == ' ' || raw[j] == '\t'
  }

  predicate ItemOk(s: Item) {
    '\n' !in WriteLine(s) &&
    match s
    case Setting(key, value, l) => KeyOk(key) && LayoutOk(l) && (l.style == Bare ==> BareOk(value))
    case Skipped(raw) => SetsNothing(raw)
  }

  // ---------- one line ----------

  lemma {:induction false} TrimLeftBlanks(blanks: string, s: string, blank: char -> bool)
    requires AllBlank(blanks, blank) && (s == "" || !blank(s[0]))
    ensures TrimLeft(blanks + s, blank) == s
  {
    if blanks == "" {
      assert blanks + s == s;
    } else {
      TrimLeftBlanks(blanks[1..], s, blank);
      assert (blanks + s)[1..] == blanks[1..] + s;
    }
  }

  lemma {:induction false} TrimRightBlanks(s: string, blanks: string, blank: char -> bool)
    requires AllBlank(blanks, blank) && (s == "" || !blank(s[|s| - 1]))
    ensures TrimRight(s + blanks, blank) == s
  {
    if blanks == "" {
      assert s + blanks == s;
    } else {
      var n := |blanks| - 1;
      TrimRightBlanks(s, blanks[..n], blank);
      assert (s + blanks)[..|s + blanks| - 1] == s + blanks[..n];
    }
  }

  /** The line between its outer blanks. */
  lemma TrimmedLine(lead: string, core: string, tail: string)
    requires AllBlank(lead, IsLeadBlank) && AllBlank(tail, IsTailBlank)
    requires core != "" && !IsLeadBlank(core[0]) && !IsTailBlank(core[|core| - 1])
    ensures TrimLine(lead + (core + tail)) == core
  {
    TrimLeftBlanks(lead, core + tail, IsLeadBlank);
    TrimRightBlanks(core, tail, IsTailBlank);
  }

  lemma QuotesOff(value: string, style: Style)
    requires style == Bare ==> BareOk(value)
    ensures Unquote(Quoted(value, style)) == value
    ensures style != Bare || value != "" ==> Quoted(value, style) != ""
    ensures Quoted(value, style) != "" ==>
              !IsLeadBlank(Quoted(value, style)[0]) && !IsTailBlank(Quoted(value, style)[|Quoted(value, style)| - 1])
  {
    var q := Quoted(value, style);
    BlankStrings(value);
    if style != Bare { assert q[1..|q| - 1] == value; }
  }

  /** What stands on either side of the first equals sign. */
  lemma CoreSplits(key: string, gap: string, lag: string, q: string)
    requires KeyOk(key) && AllBlank(gap, IsLeadBlank) && AllBlank(lag, IsLeadBlank)
    requires q == "" || !IsLeadBlank(q[0])
    ensures var core := key + (gap + ("=" + (lag + q)));
            IndexOfEquals(core) == |key| + |gap| < |core|
            && SplitSetting(core, |key| + |gap|) == Some((key, Unquote(q)))
  {
    var front := key + gap;
    BlankStrings(key);
    var core := key + (gap + ("=" + (lag + q)));
    assert core == front + ("=" + (lag + q));
    assert forall i | 0 <= i < |front| :: front[i] != '=';
    IndexOfUnique(core, c => c == '=', |front|);
    assert core[..|front|] == front && core[|front| + 1..] == lag + q;
    TrimRightBlanks(key, gap, IsLeadBlank);
    TrimLeftBlanks(lag, q, IsLeadBlank);
  }

  lemma Regroup(lead: string, key: string, gap: string, lag: string, q: string, tail: string)
    ensures lead + (key + (gap + ("=" + (lag + (q + tail))))) == lead + ((key + (gap + ("=" + (lag + q)))) + tail)
    ensures lead + (key + (gap + ("=" + (lag + ("" + tail))))) == lead + ((key + (gap + ("=" + ""))) + (lag + tail))
  {}

  lemma BlankLayout(l: Layout)
    requires LayoutOk(l)
    ensures AllBlank(l.lead, IsLeadBlank) && AllBlank(l.gap, IsLeadBlank) && AllBlank(l.lag, IsLeadBlank)
    ensures AllBlank(l.tail, IsTailBlank) && AllBlank(l.lag + l.tail, IsTailBlank)
  {
    BlankStrings(l.lead);
    BlankStrings(l.gap);
    BlankStrings(l.lag);
    BlankStrings(l.tail);
  }

  /** A setting comes back from its line, with or without quotes, whatever the blanks. */
  lemma LineReadsBack(key: string, value: string, l: Layout)
    requires KeyOk(key) && LayoutOk(l) && (l.style == Bare ==> BareOk(value))
    ensures ReadLine(WriteLine(Setting(key, value, l))) == Some((key, value))
  {
    var q := Quoted(value, l.style);
    BlankLayout(l);
    BlankStrings(key);
    QuotesOff(value, l.style);
    Regroup(l.lead, key, l.gap, l.lag, q, l.tail);
    if q == "" {
      var core := key + (l.gap + ("=" + ""));
      EndsWithEquals(key, l.gap);
      TrimmedLine(l.lead, core, l.lag + l.tail);
      CoreSplits(key, l.gap, "", "");
      assert "" + "" == "";
    } else {
      var core := key + (l.gap + ("=" + (l.lag + q)));
      CoreEnds(key, l.gap, l.lag, q);
      TrimmedLine(l.lead, core, l.tail);
      CoreSplits(key, l.gap, l.lag, q);
    }
  }

  lemma EndsWithEquals(key: string, gap: string)
    requires key != ""
    ensures var core := key + (gap + ("=" + "")); core != "" && core[0] == key[0] && core[|core| - 1] == '='
  {}

  lemma CoreEnds(key: string, gap: string, lag: string, q: string)
    requires key != "" && q != ""
    ensures var core := key + (gap + ("=" + (lag + q)));
            core != "" && core[0] == key[0] && core[|core| - 1] == q[|q| - 1]
  {}

  /** No line defines a key that is empty, has outer blanks or an `=`, or starts a comment. */
  lemma ReadKeysAreOk(raw: string)
    ensures ReadLine(raw).Some? ==> KeyOk(ReadLine(raw).value.0)
  {
    var rest, line := TrimLeft(raw, IsLeadBlank), TrimLine(raw);
    TrimLeftFacts(raw, IsLeadBlank);
    TrimRightFacts(rest, IsTailBlank);
    var eq := IndexOfEquals(line);
    IndexOfFacts(line, c => c == '=');
    TrimRightFacts(line[..eq], IsLeadBlank);
    BlankStrings(TrimRight(line[..eq], IsLeadBlank));
  }

  /** A setting in double quotes comes back exactly when its key is one a line can define. */
  lemma SettingReadsBackExactly(key: string, value: string)
    ensures ReadLine(WriteLine(Setting(key, value, CANONICAL))) == Some((key, value)) <==> KeyOk(key)
  {
    if KeyOk(key) { LineReadsBack(key, value, CANONICAL); }
    ReadKeysAreOk(WriteLine(Setting(key, value, CANONICAL)));
  }

  /** Where the trimmed line stands in the raw one. */
  lemma TrimmedPart(raw: string) returns (i: nat)
    ensures i <= |raw| && (forall j | 0 <= j < i :: IsLeadBlank(raw[j]))
    ensures i + |TrimLine(raw)| <= |raw| && TrimLine(raw) == raw[i..i + |TrimLine(raw)|]
    ensures TrimLine(raw) != "" ==> !IsLeadBlank(raw[i])
    ensures '=' in raw <==> '=' in TrimLine(raw)
  {
    var rest := TrimLeft(raw, IsLeadBlank);
    TrimLeftFacts(raw, IsLeadBlank);
    TrimRightFacts(rest, IsTailBlank);
    i := |raw| - |rest|;
    var n := |TrimLine(raw)|;
    assert rest == raw[i..];
    forall j | 0 <= j < |raw| && raw[j] == '=' ensures i <= j < i + n {
      if j >= i { assert raw[j] == rest[j - i]; }
    }
    assert forall j | i <= j < i + n :: raw[j] == TrimLine(raw)[j - i];
  }

  /** A line defines nothing exactly when it has no equals sign, or when the first thing on it
      is one or a `#`. */
  lemma SetsNothingExactly(raw: string)
    ensures ReadLine(raw) == None <==> SetsNothing(raw)
  {
    var i := TrimmedPart(raw);
    var line := TrimLine(raw);
    var eq := IndexOfEquals(line);
    IndexOfFacts(line, c => c == '=');
    TrimRightFacts(line[..eq], IsLeadBlank);
    if '=' in line {
      assert line[0] == raw[i] && eq < |line|;
      assert SetsNothing(raw) <==> line[0] == '#' || line[0] == '=';
      if eq > 0 { assert line[..eq][0] == line[0]; }
    }
  }

  // ---------- the file ----------

  lemma FirstLine(line: string, rest: string)
    requires '\n' !in line
    ensures GetLines(line + "\n" + rest) == [line] + GetLines(rest)
  {
    var text := line + "\n" + rest;
    IndexOfUnique(text, c => c == '\n', |line|);
    assert text[..|line|] == line && text[|line| + 1..] == rest;
  }

  lemma OpenLine(line: string)
    requires '\n' !in line
    ensures GetLines(line) == if line == "" then [] else [line]
  {
    IndexOfUnique(line, c => c == '\n', |line|);
  }

  /** The lines, with or without a line feed behind the last one. */
  lemma {:induction false} GetLinesUnlines(lines: seq<string>, last: string)
    requires '\n' !in last && forall i | 0 <= i < |lines| :: '\n' !in lines[i]
    ensures GetLines(Unlines(lines) + last) == lines + if last == "" then [] else [last]
  {
    OpenLine(last);
    if lines == [] {
      assert "" + last == last;
    } else {
      GetLinesUnlines(lines[1..], last);
      FirstLine(lines[0], Unlines(lines[1..]) + last);
      InFront(lines[0] + "\n", Unlines(lines[1..]), last);
      InFront([lines[0]], lines[1..], if last == "" then [] else [last]);
      assert lines == [lines[0]] + lines[1..];
    }
  }

  lemma InFront<T>(a: seq<T>, b: seq<T>, c: seq<T>)
    ensures a + b + c == a + (b + c)
  {}

  lemma ItemReadsBack(s: Item)
    requires ItemOk(s)
    ensures ReadLine(WriteLine(s)) == match s
                                      case Setting(key, value, _) => Some((key, value))
                                      case Skipped(_) => None
  {
    match s
    case Setting(key, value, l) => LineReadsBack(key, value, l);
    case Skipped(raw) => SetsNothingExactly(raw);
  }

  lemma {:induction false} LinesReadBack(items: seq<Item>)
    requires forall i | 0 <= i < |items| :: ItemOk(items[i])
    ensures ReadLines(WriteLines(items)) == Meaning(items)
  {
    if items != [] {
      var n := |items| - 1;
      LinesReadBack(items[..n]);
      ItemReadsBack(items[n]);
      assert WriteLines(items)[..n] == WriteLines(items[..n]);
      assert WriteLines(items)[n] == WriteLine(items[n]);
    }
  }

  /** Round trip: reading a written file gives back every setting, the last of equal keys, in
      whatever quotes and blanks, and skips what sets nothing. */
  lemma {:induction false} RoundTrip(items: seq<Item>)
    requires forall i | 0 <= i < |items| :: ItemOk(items[i])
    ensures Load(Write(items)) == Meaning(items)
  {
    forall i | 0 <= i < |items| ensures '\n' !in WriteLines(items)[i] {
      assert ItemOk(items[i]);
    }
    GetLinesUnlines(WriteLines(items), "");
    assert Unlines(WriteLines(items)) + "" == Unlines(WriteLines(items));
    assert WriteLines(items) + [] == WriteLines(items);
    LinesReadBack(items);
  }

  /** The last line needs no line feed. */
  lemma {:induction false} LastLineReads(items: seq<Item>, last: Item)
    requires ItemOk(last) && forall i | 0 <= i < |items| :: ItemOk(items[i])
    ensures Load(Write(items) + WriteLine(last)) == Meaning(items + [last])
  {
    var lines, line := WriteLines(items), WriteLine(last);
    forall i | 0 <= i < |lines| ensures '\n' !in lines[i] {
      assert ItemOk(items[i]);
    }
    GetLinesUnlines(lines, line);
    LinesReadBack(items);
    ItemReadsBack(last);
    assert (items + [last])[..|items|] == items;
    assert (lines + [line])[..|lines|] == lines;
    if line == "" {
      assert ReadLine("") == None;
      assert lines + [] == lines;
    }
  }

  /** The last value a list of settings gives to a key. */
  function LastValue(items: seq<Item>, key: string): Option<string> {
    if items == [] then None
    else
      var last := items[|items| - 1];
      if last.Setting? && last.key == key then Some(last.value) else LastValue(items[..|items| - 1], key)
  }

  lemma {:induction false} MeaningLooksUp(items: seq<Item>, key: string)
    ensures var m := Meaning(items);
            LastValue(items, key) == if key in m then Some(m[key]) else None
  {
    if items != [] { MeaningLooksUp(items[..|items| - 1], key); }
  }

  /** A variable's value is the last one written for it, unless that is empty or there is
      none: then the system environment decides. */
  lemma {:induction false} FileComesFirst(items: seq<Item>, system: map<string, string>, name: string)
    requires forall i | 0 <= i < |items| :: ItemOk(items[i])
    ensures ConfigOverrides.EnvValue(ConfigOverrides.Env(Load(Write(items)), system), name) ==
            match LastValue(items, name)
            case Some(v) => if v != "" then Some(v) else if name in system then Some(system[name]) else None
            case None => if name in system then Some(system[name]) else None
  {
    RoundTrip(items);
    MeaningLooksUp(items, name);
  }
}
