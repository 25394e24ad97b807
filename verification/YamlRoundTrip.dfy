/** Printing a document and parsing it back.

    `Doc` is the syntax the parser is meant for: nested mappings, flow lists, block lists of
    scalars and block lists of mappings, with every scalar in any of its spellings. `Denote`
    says what a document means, `Print` lays it out, children indented by two or more and
    unreadable lines between fields, and `RoundTrip` says that the parser returns the meaning
    of what was printed and reads every line. */
module YamlRoundTrip {
  import opened Text
  import opened Yaml
  import opened YamlScalars

  datatype Doc =
    | Scalar(item: Spelled)
    | Flow(items: seq<Spelled>)           // [a, b]
    | Block(items: seq<Spelled>)          // - a
    | Items(maps: seq<Doc>, deeper: nat)  // - key: a
    | Map(fields: seq<Field>)             // key: a

  /** A key with what stands for it, nested values indented by two and `deeper` more; or a line
      that the mapping parser cannot read and skips. */
  datatype Field =
    | Field(key: string, doc: Doc, deeper: nat)
    | Noise(text: string)

  predicate IsInline(d: Doc) {
    d.Scalar? || d.Flow?
  }

  // ---------- meaning ----------

  function Values(items: seq<Spelled>): (r: seq<Value>)
    ensures |r| == |items|
    ensures forall i | 0 <= i < |items| :: r[i] == items[i].v
  {
    seq(|items|, i requires 0 <= i < |items| => items[i].v)
  }

  function Denote(d: Doc): Value
    decreases d, 1
  {
    match d
    case Scalar(item) => item.v
    case Flow(items) => List(Values(items))
    case Block(items) => List(Values(items))
    case Items(maps, _) => List(DenoteAll(maps))
    case Map(fields) => Dict(PutAll([], fields))
  }

  function DenoteAll(docs: seq<Doc>): seq<Value>
    decreases docs, 0
  {
    if docs == [] then [] else [Denote(docs[0])] + DenoteAll(docs[1..])
  }

  /** The fields set one after the other: the last of two equal keys wins. */
  function PutAll(acc: seq<Entry>, fields: seq<Field>): seq<Entry>
    decreases fields, 0
  {
    if fields == [] then acc
    else match fields[0]
      case Field(key, doc, _) => PutAll(Put(acc, key, Denote(doc)), fields[1..])
      case Noise(_) => PutAll(acc, fields[1..])
  }

  // ---------- what can be printed ----------

  predicate KeyOk(key: string) {
    && key != "" && Trimmed(key) && NoLineBreak(key)
    && ':' !in key && '#' !in key && !StartsWith(key, "- ")
  }

  predicate ScalarOk(item: Spelled) {
    Solid(item.text) && Spells(item.text, item.v)
  }

  /** Behind a key, brackets make a list. */
  predicate ValueOk(item: Spelled) {
    ScalarOk(item) && !(item.text[0] == '[' && item.text[|item.text| - 1] == ']')
  }

  /** Inside `[...]` a comma separates. */
  predicate FlowItemOk(item: Spelled) {
    ScalarOk(item) && ',' !in item.text
  }

  /** The first colon that no `#` precedes has no key in front or nothing behind. */
  predicate StaysItem(text: string) {
    var i := IndexOf(text, EndsKey);
    i == |text| || text[i] == '#' || i == 0 || i == |text| - 1
  }

  /** After a dash, a key and a value start a mapping. */
  predicate BlockItemOk(item: Spelled) {
    ScalarOk(item) && StaysItem(item.text)
  }

  /** A line between the fields of a mapping that is none. */
  predicate NoiseOk(text: string) {
    var i := IndexOf(text, EndsKey);
    && Solid(text) && text[0] != '#' && !StartsWith(text, "- ")
    && (i == |text| || text[i] == '#' || i == 0)
  }

  predicate InlineOk(d: Doc) {
    match d
    case Scalar(item) => ValueOk(item)
    case Flow(items) => forall i | 0 <= i < |items| :: FlowItemOk(items[i])
    case _ => false
  }

  /** Block lists are not empty, and an element of a list of mappings has a first key with a
      value on its line and no unreadable line: the parser has no notation for anything else. */
  predicate Shaped(d: Doc)
    decreases d, 1
  {
    match d
    case Scalar(_) => true
    case Flow(_) => true
    case Block(items) => items != []
    case Items(maps, _) => maps != [] && MapsShaped(maps)
    case Map(fields) => FieldsShaped(fields)
  }

  predicate FieldsShaped(fields: seq<Field>)
    decreases fields, 0
  {
    fields != [] ==> (fields[0].Field? ==> Shaped(fields[0].doc)) && FieldsShaped(fields[1..])
  }

  predicate NoNoise(fields: seq<Field>) {
    forall i | 0 <= i < |fields| :: fields[i].Field?
  }

  predicate MapsShaped(maps: seq<Doc>)
    decreases maps, 0
  {
    maps != [] ==>
      && maps[0].Map? && maps[0].fields != [] && NoNoise(maps[0].fields) && IsInline(maps[0].fields[0].doc)
      && FieldsShaped(maps[0].fields[1..]) && MapsShaped(maps[1..])
  }

  // ---------- layout ----------

  datatype Row = Row(indent: nat, shape: Shape)

  datatype Shape =
    | ItemPair(key: string, doc: Doc)
    | ItemScalar(item: Spelled)
    | Opening(key: string)
    | Pair(key: string, doc: Doc)
    | Unreadable(text: string)

  function Layout(d: Doc, n: nat): seq<Row>
    decreases d, 1
  {
    match d
    case Scalar(_) => []
    case Flow(_) => []
    case Block(items) => LayoutBlock(items, n)
    case Items(maps, deeper) => LayoutMaps(maps, n, deeper)
    case Map(fields) => LayoutFields(fields, n)
  }

  function LayoutBlock(items: seq<Spelled>, n: nat): seq<Row> {
    if items == [] then [] else [Row(n, ItemScalar(items[0]))] + LayoutBlock(items[1..], n)
  }

  function LayoutField(f: Field, n: nat): seq<Row>
    decreases f, 2
  {
    match f
    case Noise(text) => [Row(n, Unreadable(text))]
    case Field(key, doc, deeper) =>
      if IsInline(doc) then [Row(n, Pair(key, doc))] else [Row(n, Opening(key))] + Layout(doc, n + 2 + deeper)
  }

  function LayoutFields(fields: seq<Field>, n: nat): seq<Row>
    decreases fields, 0
  {
    if fields == [] then [] else LayoutField(fields[0], n) + LayoutFields(fields[1..], n)
  }

  /** The keys below the first one stand deeper than the dash, by any amount. */
  function LayoutMapItem(d: Doc, n: nat, deeper: nat): seq<Row>
    decreases d, 0
  {
    if d.Map? && d.fields != [] && d.fields[0].Field? then
      [Row(n, ItemPair(d.fields[0].key, d.fields[0].doc))] + LayoutFields(d.fields[1..], n + 1 + deeper)
    else []
  }

  function LayoutMaps(maps: seq<Doc>, n: nat, deeper: nat): seq<Row>
    decreases maps, 0
  {
    if maps == [] then [] else LayoutMapItem(maps[0], n, deeper) + LayoutMaps(maps[1..], n, deeper)
  }

  // ---------- text ----------

  function Texts(items: seq<Spelled>): (r: seq<string>)
    ensures |r| == |items|
    ensures forall i | 0 <= i < |items| :: r[i] == items[i].text
  {
    seq(|items|, i requires 0 <= i < |items| => items[i].text)
  }

  function InlineText(d: Doc): string {
    match d
    case Scalar(item) => item.text
    case Flow(items) => "[" + Join(Texts(items), ", ") + "]"
    case _ => ""
  }

  function ShapeText(s: Shape): string {
    match s
    case ItemPair(key, doc) => "- " + (key + ": " + InlineText(doc))
    case ItemScalar(item) => "- " + item.text
    case Opening(key) => key + ":"
    case Pair(key, doc) => key + ": " + InlineText(doc)
    case Unreadable(text) => text
  }

  function RowText(row: Row): string {
    Pad(row.indent) + ShapeText(row.shape)
  }

  function RowTexts(rows: seq<Row>): (r: seq<string>)
    ensures |r| == |rows|
    ensures forall i | 0 <= i < |r| :: r[i] == RowText(rows[i])
  {
    seq(|rows|, i requires 0 <= i < |rows| => RowText(rows[i]))
  }

  function Print(d: Doc): string {
    Unlines(RowTexts(Layout(d, 0)))
  }

  // ---------- one line ----------

  predicate ShapeOk(s: Shape) {
    match s
    case ItemPair(key, doc) => KeyOk(key) && InlineOk(doc)
    case ItemScalar(item) => BlockItemOk(item)
    case Opening(key) => KeyOk(key)
    case Pair(key, doc) => KeyOk(key) && InlineOk(doc)
    case Unreadable(text) => NoiseOk(text)
  }

  function Form(s: Shape): Form {
    match s
    case ItemPair(key, doc) => DashEntry(key, Denote(doc))
    case ItemScalar(item) => DashScalar(item.v)
    case Opening(key) => Opens(key)
    case Pair(key, doc) => KeyValue(key, Denote(doc))
    case Unreadable(_) => Other
  }

  function Means(rows: seq<Row>): (r: seq<Line>)
    ensures |r| == |rows|
    ensures forall i | 0 <= i < |r| :: r[i] == Line(rows[i].indent, Form(rows[i].shape))
  {
    seq(|rows|, i requires 0 <= i < |rows| => Line(rows[i].indent, Form(rows[i].shape)))
  }

  lemma ScalarReads(item: Spelled)
    requires ScalarOk(item)
    ensures Coerce(item.text) == item.v && Coerce(" " + item.text) == item.v
  {
    SpellsExactly(item.text, item.v);
    StripTrimmed(item.text);
    StripLeadingBlank(item.text);
  }

  lemma CoerceCons(first: string, rest: seq<string>)
    ensures CoerceAll([first] + rest) == [Coerce(first)] + CoerceAll(rest)
  {
    assert ([first] + rest)[1..] == rest;
  }

  lemma {:induction false} FirstPieceReads(item: Spelled, lead: string)
    requires FlowItemOk(item) && (lead == "" || lead == " ")
    ensures ',' !in lead + item.text && Coerce(lead + item.text) == item.v
  {
    ScalarReads(item);
    if lead == "" { assert lead + item.text == item.text; }
  }

  /** The pieces between the commas are the items, each with the blank printed before it. */
  lemma {:induction false} FlowPieces(items: seq<Spelled>, lead: string)
    requires items != [] && (lead == "" || lead == " ")
    requires forall i | 0 <= i < |items| :: FlowItemOk(items[i])
    ensures CoerceAll(SplitOn(lead + Join(Texts(items), ", "), ',')) == Values(items)
  {
    var text := items[0].text;
    FirstPieceReads(items[0], lead);
    if |items| == 1 {
      LastPiece(text, lead);
      assert Texts(items) == [text] && Values(items) == [items[0].v];
    } else {
      var texts := Texts(items[1..]);
      FlowPieces(items[1..], " ");
      NextPiece(text, texts, lead);
      assert Texts(items) == [text] + texts;
      assert Values(items) == [items[0].v] + Values(items[1..]);
    }
  }

  lemma LastPiece(text: string, lead: string)
    requires ',' !in lead + text
    ensures CoerceAll(SplitOn(lead + Join([text], ", "), ',')) == [Coerce(lead + text)]
  {
    SplitOnCons(lead + text, "", ',');
    assert [lead + text][1..] == [];
  }

  lemma NextPiece(text: string, texts: seq<string>, lead: string)
    requires ',' !in lead + text && texts != []
    ensures CoerceAll(SplitOn(lead + Join([text] + texts, ", "), ','))
            == [Coerce(lead + text)] + CoerceAll(SplitOn(" " + Join(texts, ", "), ','))
  {
    var rest := " " + Join(texts, ", ");
    JoinCommas(text, texts, lead);
    SplitOnCons(lead + text, rest, ',');
    CoerceCons(lead + text, SplitOn(rest, ','));
  }

  lemma {:induction false} JoinSolid(texts: seq<string>)
    requires texts != [] && forall i | 0 <= i < |texts| :: Solid(texts[i])
    ensures Solid(Join(texts, ", "))
  {
    if |texts| > 1 {
      JoinSolid(texts[1..]);
      var first, rest := texts[0], Join(texts[1..], ", ");
      assert Join(texts, ", ") == first + ", " + rest;
    }
  }

  lemma Bracketed(body: string)
    requires body == "" || Solid(body)
    ensures var text := "[" + body + "]";
            && Solid(text)
            && FlowSeq(text) == Some(List(if body == "" then [] else CoerceAll(SplitOn(body, ','))))
  {
    var text := "[" + body + "]";
    assert Inner(text) == body;
    StripTrimmed(body);
    StripTrimmed(text);
  }

  lemma {:induction false} FlowReads(items: seq<Spelled>)
    requires forall i | 0 <= i < |items| :: FlowItemOk(items[i])
    ensures var text := InlineText(Flow(items)); Solid(text) && Inline(text) == List(Values(items))
  {
    var body := Join(Texts(items), ", ");
    if items != [] { JoinSolid(Texts(items)); }
    Bracketed(body);
    if items != [] {
      FlowPieces(items, "");
      assert "" + body == body;
    }
  }

  lemma ValueReads(item: Spelled)
    requires ValueOk(item)
    ensures Solid(item.text) && Inline(item.text) == item.v
  {
    ScalarReads(item);
    StripTrimmed(item.text);
  }

  lemma {:induction false} InlineReads(d: Doc)
    requires InlineOk(d)
    ensures Solid(InlineText(d)) && Inline(InlineText(d)) == Denote(d)
  {
    match d
    case Scalar(item) => ValueReads(item);
    case Flow(items) => FlowReads(items);
  }

  lemma KeyColonMatches(key: string, after: string)
    requires KeyOk(key)
    ensures ScalarMatch(key + ":" + after) == Some((key, Strip(after)))
  {
    var s := key + ":" + after;
    IndexOfUnique(s, EndsKey, |key|);
    assert s[..|key|] == key && s[|key| + 1..] == after;
    StripTrimmed(key);
  }

  lemma SolidEntry(key: string, text: string)
    requires KeyOk(key) && Solid(text)
    ensures Solid(key + ": " + text)
  {}

  /** A key, a colon and a blank in front of a solid text. */
  lemma EntryMatches(key: string, text: string)
    requires KeyOk(key) && Solid(text)
    ensures ScalarMatch(key + ": " + text) == Some((key, text))
  {
    Regrouped(key, text);
    KeyColonMatches(key, " " + text);
    StripLeadingBlank(text);
  }

  lemma Regrouped(key: string, text: string)
    ensures key + ": " + text == key + ":" + (" " + text)
  {}

  lemma {:induction false} EntryReads(key: string, doc: Doc)
    requires KeyOk(key) && InlineOk(doc)
    ensures var s := key + ": " + InlineText(doc);
            Solid(s) && ScalarMatch(s) == Some((key, InlineText(doc))) && Inline(InlineText(doc)) == Denote(doc)
  {
    InlineReads(doc);
    EntryMatches(key, InlineText(doc));
    SolidEntry(key, InlineText(doc));
  }

  /** A key and a value are found behind a dash exactly when the text is no item. */
  lemma ItemMatch(text: string)
    requires Solid(text)
    ensures var m := ScalarMatch(text); (m.None? || m.value.1 == "") <==> StaysItem(text)
  {
    var i := IndexOf(text, EndsKey);
    IndexOfFacts(text, EndsKey);
    if 0 < i < |text| - 1 {
      var after := text[i + 1..];
      assert after[|after| - 1] == text[|text| - 1];
      NotAllBlank(after);
    }
  }

  /** A text after a dash is a scalar exactly when no key with a value starts in it. */
  lemma BlockItemExact(text: string)
    requires Solid(text)
    ensures ReadItem(text).DashScalar? <==> StaysItem(text)
    ensures StaysItem(text) ==> ReadItem(text) == DashScalar(Coerce(text))
  {
    ItemMatch(text);
    StripTrimmed(text);
  }

  lemma SplitAtComma(text: string, k: nat)
    requires k < |text| && text[k] == ','
    ensures |SplitOn(text, ',')| >= 2
  {
    IndexOfFacts(text, x => x == ',');
  }

  lemma {:induction false} OneItemReads(item: Spelled)
    requires ScalarOk(item)
    ensures Inline(InlineText(Flow([item]))) == List(CoerceAll(SplitOn(item.text, ',')))
  {
    assert Texts([item]) == [item.text];
    Bracketed(item.text);
  }

  /** A scalar in a flow list comes back exactly when its text holds no comma. */
  lemma FlowItemExact(item: Spelled)
    requires ScalarOk(item)
    ensures Inline(InlineText(Flow([item]))) == List([item.v]) <==> ',' !in item.text
  {
    if ',' in item.text {
      OneItemReads(item);
      var k :| 0 <= k < |item.text| && item.text[k] == ',';
      SplitAtComma(item.text, k);
    } else {
      FlowReads([item]);
      assert Values([item]) == [item.v];
    }
  }

  /** What a printed line says without its indentation. */
  ghost predicate SaysForm(text: string, s: Shape) {
    && Solid(text) && text[0] != '#'
    && (StartsWith(text, "- ") <==> s.ItemPair? || s.ItemScalar?)
    && Form(s) == if StartsWith(text, "- ") then ReadItem(text[2..]) else ReadEntry(text)
  }

  lemma {:induction false} ShapeReads(s: Shape)
    requires ShapeOk(s)
    ensures SaysForm(ShapeText(s), s)
  {
    match s
    case ItemPair(key, doc) => ItemPairReads(key, doc);
    case ItemScalar(item) => ItemScalarReads(item);
    case Opening(key) => OpeningReads(key);
    case Pair(key, doc) => PairReads(key, doc);
    case Unreadable(text) => NoiseReads(text);
  }

  lemma ItemSolid(inline: string)
    requires Solid(inline)
    ensures Solid("- " + inline) && ("- " + inline)[2..] == inline && Strip(inline) == inline
    ensures StartsWith("- " + inline, "- ")
  {
    StripTrimmed(inline);
  }

  lemma {:induction false} ItemPairReads(key: string, doc: Doc)
    requires KeyOk(key) && InlineOk(doc)
    ensures SaysForm(ShapeText(ItemPair(key, doc)), ItemPair(key, doc))
  {
    var inline := key + ": " + InlineText(doc);
    EntryReads(key, doc);
    ItemSolid(inline);
    assert InlineText(doc) != "" by { InlineReads(doc); }
  }

  lemma {:induction false} PairReads(key: string, doc: Doc)
    requires KeyOk(key) && InlineOk(doc)
    ensures SaysForm(ShapeText(Pair(key, doc)), Pair(key, doc))
  {
    var text := key + ": " + InlineText(doc);
    PairForm(key, doc);
    Regrouped(key, InlineText(doc));
    KeyIsNotDash(key, text);
  }

  lemma {:induction false} PairForm(key: string, doc: Doc)
    requires KeyOk(key) && InlineOk(doc)
    ensures var text := key + ": " + InlineText(doc);
            Solid(text) && ReadEntry(text) == KeyValue(key, Denote(doc))
  {
    EntryReads(key, doc);
    InlineReads(doc);
  }

  lemma OpeningReads(key: string)
    requires KeyOk(key)
    ensures SaysForm(ShapeText(Opening(key)), Opening(key))
  {
    var text := key + ":";
    assert text == key + ":" + "";
    KeyColonMatches(key, "");
    KeyIsNotDash(key, text);
  }

  lemma KeyIsNotDash(key: string, text: string)
    requires KeyOk(key) && key + ":" <= text
    ensures !StartsWith(text, "- ") && text[0] != '#'
  {
    assert text[0] == key[0];
    assert text[1] == (key + ":")[1];
    if |key| >= 2 { assert key[..2] == [key[0], key[1]]; }
  }

  lemma {:induction false} ItemScalarReads(item: Spelled)
    requires BlockItemOk(item)
    ensures SaysForm(ShapeText(ItemScalar(item)), ItemScalar(item))
  {
    ItemSolid(item.text);
    BlockItemExact(item.text);
    ScalarReads(item);
  }

  lemma NoiseReads(text: string)
    requires NoiseOk(text)
    ensures SaysForm(ShapeText(Unreadable(text)), Unreadable(text))
  {}

  /** A printed line survives the constructor's filter and reads as what it was printed for. */
  lemma {:induction false} RowReads(row: Row)
    requires ShapeOk(row.shape)
    ensures var text := RowText(row);
            && NoLineBreak(text) && !Ignored(text) && TrimRight(text, IsSpace) == text
            && Read(text) == Line(row.indent, Form(row.shape))
  {
    var text, body := RowText(row), ShapeText(row.shape);
    ShapeReads(row.shape);
    TrimPad(row.indent, body, IsBlank);
    TrimPad(row.indent, body, IsSpace);
    PadFacts(row.indent);
    assert text[|text| - 1] == body[|body| - 1];
    NotAllBlank(text);
  }

  // ---------- the lines of a document ----------

  /** What can be printed: a block whose every line can. */
  predicate Printable(d: Doc) {
    Shaped(d) && !IsInline(d) && d != Map([]) && RowsOk(Layout(d, 0))
  }

  predicate RowsOk(rows: seq<Row>) {
    forall i | 0 <= i < |rows| :: ShapeOk(rows[i].shape)
  }

  lemma {:induction false} KeepSolidLines(rows: seq<Row>)
    requires RowsOk(rows)
    ensures Keep(RowTexts(rows)) == RowTexts(rows)
  {
    if rows != [] {
      RowReads(rows[0]);
      KeepSolidLines(rows[1..]);
      assert RowTexts(rows)[1..] == RowTexts(rows[1..]);
    }
  }

  lemma {:induction false} PrintedLines(d: Doc)
    requires RowsOk(Layout(d, 0))
    ensures ReadAll(Load(Print(d))) == Means(Layout(d, 0))
  {
    var rows := Layout(d, 0);
    forall i | 0 <= i < |rows|
      ensures NoLineBreak(RowTexts(rows)[i]) && Read(RowTexts(rows)[i]) == Means(rows)[i]
    {
      RowReads(rows[i]);
    }
    SplitLinesUnlines(RowTexts(rows));
    KeepSolidLines(rows);
  }

  // ---------- parsing the lines of a document ----------

  /** The lines after a block do not belong to what is indented by `n` or more. */
  predicate Below(post: seq<Line>, n: nat) {
    post == [] || post[0].indent < n
  }

  lemma {:induction false} BlockParses(items: seq<Spelled>, n: nat, post: seq<Line>, acc: seq<Value>)
    ensures Sequence(Means(LayoutBlock(items, n)) + post, n, acc) == Sequence(post, n, acc + Values(items))
  {
    var all := Means(LayoutBlock(items, n)) + post;
    if items == [] {
      assert all == post && acc + Values(items) == acc;
    } else {
      assert all[1..] == Means(LayoutBlock(items[1..], n)) + post;
      BlockParses(items[1..], n, post, acc + [items[0].v]);
      assert acc + [items[0].v] + Values(items[1..]) == acc + Values(items);
    }
  }

  /** A block printed at indentation `n` parses to its meaning and leaves what follows. */
  lemma {:induction false} NodeParses(d: Doc, n: nat, m: nat, post: seq<Line>)
    requires Shaped(d) && !IsInline(d) && Layout(d, n) != [] && m <= n && Below(post, n)
    ensures Node(Means(Layout(d, n)) + post, m) == (Denote(d), post)
    decreases d, 1
  {
    var all := Means(Layout(d, n)) + post;
    LayoutHead(d, n);
    assert all[0].indent == n && (all[0].Dash() <==> !d.Map?);
    match d
    case Block(items) =>
      BlockParses(items, n, post, []);
      assert [] + Values(items) == Values(items);
    case Items(maps, deeper) =>
      MapsParse(maps, n, deeper, post, []);
      assert [] + DenoteAll(maps) == DenoteAll(maps);
    case Map(fields) =>
      FieldsParse(fields, n, post, []);
  }

  /** One nested field: the child's lines, however deep, are read and nothing of what follows. */
  lemma {:induction false} ChildParses(d: Doc, n: nat, m: nat, post: seq<Line>)
    requires Shaped(d) && !IsInline(d) && m <= n && Below(post, m)
    ensures var (child, rest) := Node(Means(Layout(d, n)) + post, m);
            rest == post && (if child.Null? then Dict([]) else child) == Denote(d)
            && (if Falsy(child) then Dict([]) else child) == Denote(d)
    decreases d, 2
  {
    if Layout(d, n) == [] {
      LayoutHead(d, n);
      assert Means(Layout(d, n)) + post == post;
    } else {
      NodeParses(d, n, m, post);
      OnlyMapsFalsy(d);
    }
  }

  /** Only the empty mapping prints no line; any other block starts at its indentation. */
  lemma LayoutHead(d: Doc, n: nat)
    requires Shaped(d) && !IsInline(d)
    ensures Layout(d, n) == [] <==> d == Map([])
    ensures d != Map([]) ==>
              var first := Layout(d, n)[0];
              first.indent == n && (first.shape.ItemPair? || first.shape.ItemScalar? <==> !d.Map?)
  {
    match d
    case Block(items) =>
      assert LayoutBlock(items, n) == [Row(n, ItemScalar(items[0]))] + LayoutBlock(items[1..], n);
    case Items(maps, deeper) =>
      assert LayoutMaps(maps, n, deeper) == LayoutMapItem(maps[0], n, deeper) + LayoutMaps(maps[1..], n, deeper);
    case Map(fields) =>
      assert fields != [] ==> LayoutFields(fields, n) == LayoutField(fields[0], n) + LayoutFields(fields[1..], n);
  }

  lemma OnlyMapsFalsy(d: Doc)
    requires Shaped(d) && !IsInline(d)
    ensures Falsy(Denote(d)) ==> Denote(d) == Dict([])
    ensures !Denote(d).Null?
  {}

  lemma MeansConcat(a: seq<Row>, b: seq<Row>, post: seq<Line>)
    ensures Means(a + b) + post == Means(a) + (Means(b) + post)
  {}

  lemma {:induction false} FieldParses(f: Field, n: nat, post: seq<Line>, acc: seq<Entry>)
    requires (f.Field? ==> Shaped(f.doc)) && Below(post, n + 1)
    ensures Mapping(Means(LayoutField(f, n)) + post, n, acc) == Mapping(post, n, PutAll(acc, [f]))
    decreases f, 3
  {
    var all := Means(LayoutField(f, n)) + post;
    PutOne(acc, f);
    if f.Noise? {
      assert all[0] == Line(n, Other) && all[1..] == post;
    } else if IsInline(f.doc) {
      assert all[0] == Line(n, KeyValue(f.key, Denote(f.doc))) && all[1..] == post;
    } else {
      assert all[0] == Line(n, Opens(f.key)) && all[1..] == Means(Layout(f.doc, n + 2 + f.deeper)) + post;
      ChildParses(f.doc, n + 2 + f.deeper, n + 2, post);
    }
  }

  lemma PutOne(acc: seq<Entry>, f: Field)
    ensures PutAll(acc, [f]) == if f.Field? then Put(acc, f.key, Denote(f.doc)) else acc
  {
    assert [f][1..] == [];
  }

  /** `n` is the indentation of the dash, `m` that of the field. */
  lemma {:induction false} FieldAbsorbed(f: Field, n: nat, m: nat, post: seq<Line>, acc: seq<Entry>)
    requires f.Field? && Shaped(f.doc) && n < m && Below(post, m + 1)
    ensures Absorb(Means(LayoutField(f, m)) + post, n, acc) == Absorb(post, n, Put(acc, f.key, Denote(f.doc)))
    decreases f, 3
  {
    var all := Means(LayoutField(f, m)) + post;
    if IsInline(f.doc) {
      assert all[0] == Line(m, KeyValue(f.key, Denote(f.doc))) && all[1..] == post;
    } else {
      assert all[0] == Line(m, Opens(f.key)) && all[1..] == Means(Layout(f.doc, m + 2 + f.deeper)) + post;
      ChildParses(f.doc, m + 2 + f.deeper, m + 2, post);
    }
  }

  lemma FieldsHead(fields: seq<Field>, n: nat, m: nat, post: seq<Line>)
    requires Below(post, n + 1) && n <= m
    ensures Below(Means(LayoutFields(fields, m)) + post, m + 1)
  {
    if fields != [] {
      assert LayoutFields(fields, m) == LayoutField(fields[0], m) + LayoutFields(fields[1..], m);
    }
  }

  lemma PutAllStep(acc: seq<Entry>, fields: seq<Field>)
    requires fields != []
    ensures PutAll(acc, fields) == PutAll(PutAll(acc, [fields[0]]), fields[1..])
  {
    PutOne(acc, fields[0]);
  }

  lemma {:induction false} FieldsParse(fields: seq<Field>, n: nat, post: seq<Line>, acc: seq<Entry>)
    requires FieldsShaped(fields) && Below(post, n + 1)
    ensures Mapping(Means(LayoutFields(fields, n)) + post, n, acc) == Mapping(post, n, PutAll(acc, fields))
    decreases fields, 0
  {
    if fields == [] {
      assert Means(LayoutFields(fields, n)) + post == post;
    } else {
      MeansConcat(LayoutField(fields[0], n), LayoutFields(fields[1..], n), post);
      FieldsHead(fields[1..], n, n, post);
      FieldParses(fields[0], n, Means(LayoutFields(fields[1..], n)) + post, acc);
      PutAllStep(acc, fields);
      FieldsParse(fields[1..], n, post, PutAll(acc, [fields[0]]));
    }
  }

  lemma {:induction false} FieldsAbsorbed(fields: seq<Field>, n: nat, m: nat, post: seq<Line>, acc: seq<Entry>)
    requires FieldsShaped(fields) && NoNoise(fields) && n < m && Below(post, n + 1)
    ensures Absorb(Means(LayoutFields(fields, m)) + post, n, acc) == (PutAll(acc, fields), post)
    decreases fields, 0
  {
    if fields == [] {
      assert Means(LayoutFields(fields, m)) + post == post;
    } else {
      MeansConcat(LayoutField(fields[0], m), LayoutFields(fields[1..], m), post);
      FieldsHead(fields[1..], n, m, post);
      FieldAbsorbed(fields[0], n, m, Means(LayoutFields(fields[1..], m)) + post, acc);
      FieldsAbsorbed(fields[1..], n, m, post, Put(acc, fields[0].key, Denote(fields[0].doc)));
    }
  }

  /** The line of the dash, and the lines of the fields below it. */
  lemma MapItemLines(fields: seq<Field>, n: nat, deeper: nat, post: seq<Line>)
    requires fields != [] && fields[0].Field? && IsInline(fields[0].doc)
    ensures var all := Means(LayoutMapItem(Map(fields), n, deeper)) + post;
            && all != [] && all[0] == Line(n, DashEntry(fields[0].key, Denote(fields[0].doc)))
            && all[1..] == Means(LayoutFields(fields[1..], n + 1 + deeper)) + post
  {}

  lemma PutFirst(fields: seq<Field>)
    requires fields != [] && fields[0].Field?
    ensures PutAll([], fields) == PutAll([Entry(fields[0].key, Denote(fields[0].doc))], fields[1..])
  {}

  /** One element of a list of mappings: its first key is on the dash's line, the rest below. */
  lemma {:induction false} MapItemParses(fields: seq<Field>, n: nat, deeper: nat, post: seq<Line>, acc: seq<Value>)
    requires fields != [] && NoNoise(fields) && IsInline(fields[0].doc) && FieldsShaped(fields[1..])
    requires Below(post, n + 1)
    ensures Sequence(Means(LayoutMapItem(Map(fields), n, deeper)) + post, n, acc)
            == Sequence(post, n, acc + [Denote(Map(fields))])
    decreases fields, 1
  {
    MapItemLines(fields, n, deeper, post);
    PutFirst(fields);
    FieldsAbsorbed(fields[1..], n, n + 1 + deeper, post, [Entry(fields[0].key, Denote(fields[0].doc))]);
  }

  lemma {:induction false} MapsParse(maps: seq<Doc>, n: nat, deeper: nat, post: seq<Line>, acc: seq<Value>)
    requires MapsShaped(maps) && Below(post, n + 1)
    ensures Sequence(Means(LayoutMaps(maps, n, deeper)) + post, n, acc)
            == Sequence(post, n, acc + DenoteAll(maps))
    decreases maps, 0
  {
    if maps == [] {
      assert Means(LayoutMaps(maps, n, deeper)) + post == post && acc + DenoteAll(maps) == acc;
    } else {
      var after := Means(LayoutMaps(maps[1..], n, deeper)) + post;
      MeansConcat(LayoutMapItem(maps[0], n, deeper), LayoutMaps(maps[1..], n, deeper), post);
      if |maps| > 1 { LayoutHead(Items(maps[1..], deeper), n); }
      MapItemParses(maps[0].fields, n, deeper, after, acc);
      MapsParse(maps[1..], n, deeper, post, acc + [Denote(maps[0])]);
      assert acc + [Denote(maps[0])] + DenoteAll(maps[1..]) == acc + DenoteAll(maps);
    }
  }

  /** Round trip: parsing the print of a document returns its meaning and leaves no line. */
  lemma RoundTrip(d: Doc)
    requires Printable(d)
    ensures Node(ReadAll(Load(Print(d))), 0) == (Denote(d), [])
    ensures Parse(Print(d)) == Denote(d)
  {
    PrintedLines(d);
    LayoutHead(d, 0);
    NodeParses(d, 0, 0, []);
    assert Means(Layout(d, 0)) + [] == Means(Layout(d, 0));
  }

  // ---------- what ends a block ----------

  /** A mapping hands back at the first line of another indentation or with a dash. */
  lemma MappingEnds(next: Line, rest: seq<Line>, n: nat, acc: seq<Entry>)
    requires next.indent != n || next.Dash()
    ensures Mapping([next] + rest, n, acc) == (acc, [next] + rest)
  {}

  /** What belongs to a key stands two deeper than it: otherwise the key has the empty mapping. */
  lemma NothingNested(key: string, post: seq<Line>, n: nat, acc: seq<Entry>)
    requires Below(post, n + 2) && (post != [] ==> post[0].indent != n || post[0].Dash())
    ensures Mapping([Line(n, Opens(key))] + post, n, acc) == (Put(acc, key, Dict([])), post)
  {
    assert ([Line(n, Opens(key))] + post)[1..] == post;
  }

  lemma NothingNestedInItem(key: string, post: seq<Line>, n: nat, m: nat, acc: seq<Entry>)
    requires n < m && Below(post, m + 2)
    ensures Absorb([Line(m, Opens(key))] + post, n, acc) == Absorb(post, n, Put(acc, key, Dict([])))
  {
    assert ([Line(m, Opens(key))] + post)[1..] == post;
  }

  /** A sequence hands back at the first line that stands less deep or has no dash, and takes a
      dash that stands deeper. */
  lemma SequenceEnds(next: Line, rest: seq<Line>, n: nat, acc: seq<Value>)
    ensures next.indent < n || !next.Dash() ==> Sequence([next] + rest, n, acc) == (acc, [next] + rest)
    ensures next.indent >= n && next.form.DashScalar? ==>
              Sequence([next] + rest, n, acc) == Sequence(rest, n, acc + [next.form.val])
  {
    assert ([next] + rest)[1..] == rest;
  }

  /** The keys below a list element end at the first line that stands no deeper than the dash,
      has a dash of its own, or cannot be read. */
  lemma AbsorbEnds(next: Line, rest: seq<Line>, n: nat, acc: seq<Entry>)
    requires next.indent <= n || next.Dash() || next.form.Other?
    ensures Absorb([next] + rest, n, acc) == (acc, [next] + rest)
  {}
}
