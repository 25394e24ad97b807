/** The spellings of a scalar: which texts the parser reads as which value, said without its
    order of tests. */
module YamlScalars {
  import opened Text
  import opened Yaml

  /** A value and the text that stands for it. */
  datatype Spelled = Spelled(v: Value, text: string)

  function Capital(c: char): char
    requires 'a' <= c <= 'z'
  {
    (c as int - 'a' as int + 'A' as int) as char
  }

  predicate IsWord(s: string) {
    forall i | 0 <= i < |s| :: 'a' <= s[i] <= 'z'
  }

  /** The word, with any of its letters capital. */
  predicate SameLetters(text: string, word: string)
    requires IsWord(word)
  {
    |text| == |word| && forall i | 0 <= i < |word| :: text[i] == word[i] || text[i] == Capital(word[i])
  }

  function Pow10(n: nat): nat {
    if n == 0 then 1 else 10 * Pow10(n - 1)
  }

  function DigitValue(c: char): nat {
    if IsDigit(c) then c as int - '0' as int else 0
  }

  /** What digits are worth by their places. */
  function Worth(digits: string): nat {
    if digits == "" then 0 else DigitValue(digits[0]) * Pow10(|digits| - 1) + Worth(digits[1..])
  }

  function BehindMinus(text: string): string {
    if text != "" && text[0] == '-' then text[1..] else text
  }

  predicate Numeral(text: string) {
    BehindMinus(text) != "" && AllDigits(BehindMinus(text))
  }

  predicate InQuotes(text: string) {
    text != "" && (text[0] == '"' || text[0] == '\'') && text[|text| - 1] == text[0]
  }

  /** A text that stands for itself. */
  predicate Plain(text: string) {
    && !SameLetters(text, "true") && !SameLetters(text, "false") && !SameLetters(text, "null") && text != "~"
    && !Numeral(text) && !InQuotes(text)
  }

  /** The text stands for the value: `null` or `~`; `true` and `false` in any case; digits with
      or without a minus; a string in double or single quotes, or, if it can, as it stands. */
  predicate Spells(text: string, v: Value) {
    match v
    case Null => text == "~" || SameLetters(text, "null")
    case Bool(b) => SameLetters(text, if b then "true" else "false")
    case Int(n) =>
      Numeral(text) && n == if text[0] == '-' then 0 - Worth(text[1..]) else Worth(text)
    case Str(s) =>
      || text == "\"" + s + "\"" || text == "'" + s + "'"
      || ((text == "\"" || text == "'") && s == "")
      || (text == s && Plain(s))
    case _ => false
  }

  /** What every piece of a line satisfies: it can be stripped without loss. */
  predicate Solid(s: string) {
    s != "" && Trimmed(s) && NoLineBreak(s)
  }

  // ---------- words ----------

  lemma CapitalOrSmall(c: char, w: char)
    requires 'a' <= w <= 'z'
    ensures LowerChar(c) == w <==> c == w || c == Capital(w)
  {}

  lemma LowerIsWord(text: string, word: string)
    requires IsWord(word)
    ensures Lower(text) == word <==> SameLetters(text, word)
  {
    forall i | 0 <= i < |word| && i < |text|
      ensures Lower(text)[i] == word[i] <==> text[i] == word[i] || text[i] == Capital(word[i])
    {
      CapitalOrSmall(text[i], word[i]);
    }
    if SameLetters(text, word) {
      forall i | 0 <= i < |word| ensures Lower(text)[i] == word[i] {}
    }
    if Lower(text) == word {
      forall i | 0 <= i < |word| ensures text[i] == word[i] || text[i] == Capital(word[i]) {
        assert Lower(text)[i] == word[i];
      }
    }
  }

  lemma LowerIsWords(text: string)
    ensures Lower(text) == "true" <==> SameLetters(text, "true")
    ensures Lower(text) == "false" <==> SameLetters(text, "false")
    ensures Lower(text) == "null" <==> SameLetters(text, "null")
  {
    LowerIsWord(text, "true");
    LowerIsWord(text, "false");
    LowerIsWord(text, "null");
  }

  lemma WordsDiffer(text: string)
    ensures !(SameLetters(text, "true") && SameLetters(text, "null"))
    ensures SameLetters(text, "true") || SameLetters(text, "null") ==> |text| == 4
    ensures SameLetters(text, "false") ==> |text| == 5
  {
    assert "true"[0] == 't' && "null"[0] == 'n';
  }

  // ---------- numerals ----------

  /** Reading digits from the end is adding up their worth. */
  lemma {:induction false} WorthIsRead(digits: string)
    requires AllDigits(digits)
    ensures StringToNat(digits) == Worth(digits)
  {
    if |digits| > 1 {
      var n := |digits| - 1;
      WorthIsRead(digits[..n]);
      WorthSnoc(digits[..n], digits[n]);
      assert digits == digits[..n] + [digits[n]];
    } else if |digits| == 1 {
      assert digits[..0] == "" && digits[1..] == "";
      assert Worth(digits[1..]) == 0 && Pow10(0) == 1;
    }
  }

  lemma {:induction false} WorthSnoc(digits: string, c: char)
    requires IsDigit(c)
    ensures Worth(digits + [c]) == 10 * Worth(digits) + DigitValue(c)
  {
    var more := digits + [c];
    if digits == "" {
      assert more[1..] == "" && Pow10(0) == 1;
    } else {
      assert more[1..] == digits[1..] + [c];
      WorthSnoc(digits[1..], c);
      TenTimes(DigitValue(digits[0]), |digits| - 1);
    }
  }

  lemma TenTimes(d: nat, n: nat)
    ensures d * Pow10(n + 1) == 10 * (d * Pow10(n))
  {}

  lemma NumeralIsInteger(text: string)
    requires text != ""
    ensures IsInteger(text) <==> Numeral(text)
    ensures Numeral(text) ==> ToInteger(text) == if text[0] == '-' then 0 - Worth(text[1..]) else Worth(text)
  {
    if Numeral(text) {
      WorthIsRead(BehindMinus(text));
      if text[0] != '-' { assert BehindMinus(text) == text; }
    }
  }

  lemma NumeralIsNoWord(text: string)
    requires Numeral(text)
    ensures !SameLetters(text, "true") && !SameLetters(text, "false") && !SameLetters(text, "null")
    ensures text != "~" && !InQuotes(text)
  {
    assert "true"[0] == 't' && "false"[0] == 'f' && "null"[0] == 'n' && "~"[0] == '~';
  }

  lemma QuotedIsNoWord(text: string)
    requires InQuotes(text)
    ensures !SameLetters(text, "true") && !SameLetters(text, "false") && !SameLetters(text, "null")
    ensures text != "~" && !Numeral(text)
  {
    assert "true"[0] == 't' && "false"[0] == 'f' && "null"[0] == 'n' && "~"[0] == '~';
  }

  lemma TildeIsNoWord()
    ensures !SameLetters("~", "true") && !SameLetters("~", "false")
  {}

  // ---------- every text ----------

  /** What the parser reads, by the kind of the text. */
  lemma CoerceByKind(text: string)
    requires text != ""
    ensures CoerceStripped(text) ==
            if SameLetters(text, "true") then Bool(true)
            else if SameLetters(text, "false") then Bool(false)
            else if SameLetters(text, "null") || text == "~" then Null
            else if InQuotes(text) then Str(Inner(text))
            else if Numeral(text) then (if text[0] == '-' then Int(0 - Worth(text[1..])) else Int(Worth(text)))
            else Str(text)
  {
    LowerIsWords(text);
    NumeralIsInteger(text);
  }

  lemma QuotesAround(text: string, s: string)
    requires text != ""
    ensures InQuotes(text) && Inner(text) == s <==>
            text == "\"" + s + "\"" || text == "'" + s + "'" || ((text == "\"" || text == "'") && s == "")
  {
    if InQuotes(text) && |text| >= 2 {
      assert text == [text[0]] + text[1..|text| - 1] + [text[|text| - 1]];
    }
    if text == "\"" + s + "\"" || text == "'" + s + "'" {
      assert text[1..|text| - 1] == s;
    }
  }

  /** The parser reads a text as a value exactly when the text spells the value. */
  lemma SpellsExactly(text: string, v: Value)
    requires text != "" && Trimmed(text)
    ensures Coerce(text) == v <==> Spells(text, v)
  {
    StripTrimmed(text);
    CoerceByKind(text);
    WordsDiffer(text);
    if Numeral(text) { NumeralIsNoWord(text); }
    if InQuotes(text) { QuotedIsNoWord(text); }
    TildeIsNoWord();
    if v.Str? { QuotesAround(text, v.s); }
  }

  /** The white space around a text does not matter, and alone it is null. */
  lemma CoerceStrips(text: string)
    ensures Coerce(text) == if Strip(text) == "" then Null else Coerce(Strip(text))
  {
    StripIsTrimmed(text);
    StripTrimmed(Strip(text));
  }

  lemma StripIsTrimmed(text: string)
    ensures Trimmed(Strip(text))
  {
    var rest := TrimLeft(text, IsSpace);
    TrimLeftFacts(text, IsSpace);
    TrimRightFacts(rest, IsSpace);
  }

  // ---------- every scalar has a spelling ----------

  function Spelling(v: Value): string {
    match v
    case Bool(b) => if b then "true" else "false"
    case Int(n) => if n < 0 then "-" + NatToString(0 - n) else NatToString(n)
    case Str(s) => "\"" + s + "\""
    case _ => "null"
  }

  lemma DigitsSpell(digits: string)
    requires digits != "" && AllDigits(digits)
    ensures Spells(digits, Int(StringToNat(digits))) && Solid(digits)
    ensures Spells("-" + digits, Int(0 - StringToNat(digits))) && Solid("-" + digits)
  {
    WorthIsRead(digits);
    MinusInFront(digits);
  }

  lemma MinusInFront(digits: string)
    requires digits != ""
    ensures var text := "-" + digits; text[0] == '-' && text[1..] == digits && text[|text| - 1] == digits[|digits| - 1]
  {}

  lemma {:induction false} SpellingSpells(v: Value)
    requires !v.List? && !v.Dict? && (v.Str? ==> NoLineBreak(v.s))
    ensures Spells(Spelling(v), v) && Solid(Spelling(v))
  {
    if v.Int? {
      var size := if v.n < 0 then 0 - v.n else v.n;
      NatRoundTrip(size);
      DigitsSpell(NatToString(size));
    }
  }
}
