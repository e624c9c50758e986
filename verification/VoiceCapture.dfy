/** Numbers in a spoken phrase: where they stand, and the phrase without them. A phrase is text whose
    letters are already folded to lower case without accents. */
module VoiceCapture {
  import opened Basics
  import opened Results

  // Words of a text

  predicate IsWord(w: string) { w != "" && ' ' !in w }

  predicate AreWords(words: seq<string>) { forall i :: 0 <= i < |words| ==> IsWord(words[i]) }

  /** split(' ').filter(Boolean). */
  function Words(s: string): (words: seq<string>)
    ensures s != "" && s[0] != ' ' ==> words != []
  {
    if s == "" then []
    else
      var rest := Words(s[1..]);
      if s[0] == ' ' then rest
      else if |s| == 1 || s[1] == ' ' then [[s[0]]] + rest
      else [[s[0]] + rest[0]] + rest[1..]
  }

  /** join(' '). */
  function Join(words: seq<string>): string {
    if words == [] then ""
    else if |words| == 1 then words[0]
    else words[0] + " " + Join(words[1..])
  }

  /** Single spaces between words, none at the ends. */
  predicate SingleSpaced(s: string) {
    && (forall i :: 0 <= i < |s| && s[i] == ' ' ==> 0 < i < |s| - 1)
    && NoDoubleSpace(s)
  }

  predicate NoDoubleSpace(s: string) { forall i :: 0 <= i < |s| - 1 && s[i] == ' ' ==> s[i + 1] != ' ' }

  predicate Boundary(s: string, i: nat)
    requires i <= |s|
  {
    i == 0 || i == |s| || s[i] == ' ' || s[i - 1] == ' '
  }

  /** Words never reach across a boundary. */
  lemma {:induction false} WordsSplit(s: string, i: nat)
    requires i <= |s| && Boundary(s, i)
    ensures Words(s) == Words(s[..i]) + Words(s[i..])
  {
    if i == 0 {
      assert s[..0] == "" && s[0..] == s;
    } else {
      var head, tail := s[..i], s[i..];
      WordsSplit(s[1..], i - 1);
      assert s[1..][..i - 1] == head[1..] && s[1..][i - 1..] == tail;
      PrependWord(s, head, Words(tail));
    }
  }

  /** How a letter joins the words that follow only depends on the next letter. */
  lemma PrependWord(s: string, head: string, more: seq<string>)
    requires s != "" && head != "" && s[0] == head[0] && Words(s[1..]) == Words(head[1..]) + more
    requires s[0] != ' ' ==> (|s| == 1 || s[1] == ' ' <==> |head| == 1 || head[1] == ' ')
    ensures Words(s) == Words(head) + more
  {
  }

  lemma {:induction false} WordsAreWords(s: string)
    ensures AreWords(Words(s))
  {
    if s != "" {
      WordsAreWords(s[1..]);
    }
  }

  lemma {:induction false} WordsOfWord(w: string)
    requires IsWord(w)
    ensures Words(w) == [w]
  {
    if |w| > 1 {
      assert w[0] in w && w[1] in w;
      WordsOfWord(w[1..]);
      assert [w[0]] + w[1..] == w;
    } else {
      assert w[0] in w && w == [w[0]];
    }
  }

  /** Words of two texts with a space between. */
  lemma WordsAroundSpace(a: string, b: string)
    ensures Words(a + " " + b) == Words(a) + Words(b)
  {
    var s := a + " " + b;
    assert s[..|a|] == a && s[|a|..] == " " + b && (" " + b)[1..] == b;
    WordsSplit(s, |a|);
  }

  /** Joining words and splitting again gives the words back. */
  lemma {:induction false} WordsOfJoin(words: seq<string>)
    requires AreWords(words)
    ensures Words(Join(words)) == words
  {
    if words != [] {
      WordsOfWord(words[0]);
      WordsOfJoin(words[1..]);
      WordsAroundSpace(words[0], Join(words[1..]));
    }
  }

  /** A single-spaced text is its words joined. */
  lemma {:induction false} JoinOfWords(s: string)
    requires SingleSpaced(s)
    ensures Join(Words(s)) == s
    decreases |s|
  {
    if |s| > 1 {
      SingleSpacedTail(s);
      hide SingleSpaced;
      assert s == [s[0]] + s[1..];
      if s[1] == ' ' {
        var next := s[2..];
        assert s[1..][1..] == next && s[1..] == " " + next;
        JoinOfWords(next);
        assert Words(s) == [[s[0]]] + Words(next);
        assert Words(s)[1..] == Words(next);
      } else {
        JoinOfWords(s[1..]);
        var rest := Words(s[1..]);
        assert Words(s)[1..] == rest[1..];
      }
    } else if |s| == 1 {
      assert s[1..] == "";
    }
  }

  lemma SingleSpacedTail(s: string)
    requires SingleSpaced(s) && |s| > 1
    ensures if s[1] == ' ' then |s| > 2 && s[2] != ' ' && SingleSpaced(s[2..]) else SingleSpaced(s[1..])
  {
    var k := if s[1] == ' ' then 2 else 1;
    assert |s| > k && s[k] != ' ';
    forall i | 0 <= i < |s[k..]| && s[k..][i] == ' ' ensures 0 < i < |s[k..]| - 1 {
      assert s[k + i] == ' ';
    }
    forall i | 0 <= i < |s[k..]| - 1 && s[k..][i] == ' ' ensures s[k..][i + 1] != ' ' {
      assert s[k + i] == ' ' && s[k + i + 1] != ' ';
    }
  }

  // Collapsing spaces

  /** replace(/\s+/g, ' '). */
  function Squash(s: string): string {
    if s == "" then ""
    else if s[0] == ' ' && |s| > 1 && s[1] == ' ' then Squash(s[1..])
    else [s[0]] + Squash(s[1..])
  }

  /** trim() of a text without two spaces in a row. */
  function TrimOne(s: string): string {
    var t := if s != "" && s[0] == ' ' then s[1..] else s;
    if t != "" && t[|t| - 1] == ' ' then t[..|t| - 1] else t
  }

  function CollapseSpaces(s: string): string { TrimOne(Squash(s)) }

  lemma {:induction false} SquashKeepsWords(s: string)
    ensures Words(Squash(s)) == Words(s)
    ensures |Squash(s)| <= |s| && (s != "" ==> Squash(s) != "" && Squash(s)[0] == s[0])
    ensures NoDoubleSpace(Squash(s))
  {
    if s != "" {
      SquashKeepsWords(s[1..]);
      if !(s[0] == ' ' && |s| > 1 && s[1] == ' ') {
        assert Squash(s)[1..] == Squash(s[1..]);
      }
    }
  }

  lemma TrimKeepsWords(q: string)
    requires NoDoubleSpace(q)
    ensures Words(TrimOne(q)) == Words(q) && SingleSpaced(TrimOne(q))
  {
    var t := if q != "" && q[0] == ' ' then q[1..] else q;
    if t != "" && t[|t| - 1] == ' ' {
      assert t == t[..|t| - 1] + " " + "";
      WordsAroundSpace(t[..|t| - 1], "");
    }
  }

  /** Collapsing gives the words of the text joined by single spaces. */
  lemma CollapseJoinsWords(s: string)
    ensures CollapseSpaces(s) == Join(Words(s))
    ensures SingleSpaced(CollapseSpaces(s))
  {
    SquashKeepsWords(s);
    TrimKeepsWords(Squash(s));
    JoinOfWords(CollapseSpaces(s));
  }

  // Where each word stands in the joined text

  lemma {:induction false} JoinConcat(a: seq<string>, b: seq<string>)
    requires a != [] && b != []
    ensures Join(a + b) == Join(a) + " " + Join(b)
  {
    assert (a + b)[1..] == a[1..] + b;
    if |a| > 1 {
      JoinConcat(a[1..], b);
    } else {
      assert a[1..] + b == b;
    }
  }

  function StartOf(words: seq<string>, i: nat): nat
    requires i <= |words|
  {
    if i == 0 then 0 else |Join(words[..i])| + 1
  }

  function EndOf(words: seq<string>, i: nat): nat
    requires i < |words|
  {
    StartOf(words, i) + |words[i]|
  }

  lemma JoinUpTo(words: seq<string>, i: nat)
    requires i < |words|
    ensures Join(words[..i + 1]) == (if i == 0 then "" else Join(words[..i]) + " ") + words[i]
    ensures |Join(words[..i + 1])| == EndOf(words, i)
  {
    assert words[..i + 1] == words[..i] + [words[i]];
    if i > 0 {
      JoinConcat(words[..i], [words[i]]);
    }
  }

  lemma JoinIsPrefix(words: seq<string>, i: nat)
    requires i <= |words|
    ensures var s, head := Join(words), Join(words[..i]);
      |head| <= |s| && s[..|head|] == head && (0 < i < |words| ==> |head| < |s| && s[|head|] == ' ')
  {
    if i == |words| {
      assert words[..i] == words;
    } else if i > 0 {
      assert words == words[..i] + words[i..];
      JoinConcat(words[..i], words[i..]);
    }
  }

  lemma WordStands(words: seq<string>, i: nat)
    requires i < |words|
    ensures EndOf(words, i) <= |Join(words)|
    ensures Join(words)[StartOf(words, i)..EndOf(words, i)] == words[i]
    ensures i > 0 ==> Join(words)[StartOf(words, i) - 1] == ' '
    ensures i + 1 < |words| ==> EndOf(words, i) < |Join(words)| && Join(words)[EndOf(words, i)] == ' '
  {
    JoinUpTo(words, i);
    JoinIsPrefix(words, i + 1);
    JoinIsPrefix(words, i);
    var s, head := Join(words), Join(words[..i + 1]);
    assert head[StartOf(words, i)..] == words[i];
    assert s[StartOf(words, i)..EndOf(words, i)] == s[..|head|][StartOf(words, i)..];
  }

  // Numbers

  datatype Locale = ES | EN

  const WORD_NUMBERS_ES: map<string, int> := map[
    "un" := 1, "uno" := 1, "una" := 1, "dos" := 2, "tres" := 3, "cuatro" := 4, "cinco" := 5, "seis" := 6, "siete" := 7,
    "ocho" := 8, "nueve" := 9, "diez" := 10, "once" := 11, "doce" := 12, "trece" := 13, "catorce" := 14, "quince" := 15,
    "dieciseis" := 16, "diecisiete" := 17, "dieciocho" := 18, "diecinueve" := 19, "veinte" := 20, "veintiuno" := 21,
    "veintiun" := 21, "veintidos" := 22, "veintitres" := 23, "veinticuatro" := 24, "veinticinco" := 25,
    "veintiseis" := 26, "veintisiete" := 27, "veintiocho" := 28, "veintinueve" := 29, "treinta" := 30]

  const WORD_NUMBERS_EN: map<string, int> := map[
    "one" := 1, "two" := 2, "three" := 3, "four" := 4, "five" := 5, "six" := 6, "seven" := 7, "eight" := 8, "nine" := 9,
    "ten" := 10, "eleven" := 11, "twelve" := 12, "thirteen" := 13, "fourteen" := 14, "fifteen" := 15, "sixteen" := 16,
    "seventeen" := 17, "eighteen" := 18, "nineteen" := 19, "twenty" := 20, "thirty" := 30]

  const EN_COMPOUND_PREFIX: map<string, int> := map["twenty" := 20, "thirty" := 30]

  const EN_UNIT_SUFFIX: map<string, int> := map[
    "one" := 1, "two" := 2, "three" := 3, "four" := 4, "five" := 5, "six" := 6, "seven" := 7, "eight" := 8, "nine" := 9]

  const FILLER_WORDS_ES: set<string> := {
    "como", "en", "el", "la", "los", "las", "un", "una", "unos", "unas", "de", "del", "a", "al", "y", "e", "o", "u",
    "que", "es", "por", "para", "con", "sin", "su", "mi", "numero", "num", "dorsal", "camiseta", "jugador"}

  const FILLER_WORDS_EN: set<string> := {
    "like", "as", "in", "the", "a", "an", "to", "for", "of", "and", "or", "on", "at", "is", "it", "number", "num",
    "jersey", "player", "by"}

  function WordNumberMap(locale: Locale): map<string, int> { if locale == EN then WORD_NUMBERS_EN else WORD_NUMBERS_ES }

  function Fillers(locale: Locale): set<string> { if locale == EN then FILLER_WORDS_EN else FILLER_WORDS_ES }

  predicate IsShortNumber(token: string) { 1 <= |token| <= 2 && forall i :: 0 <= i < |token| ==> IsDigit(token[i]) }

  function ParseDigits(token: string): (value: int)
    requires IsShortNumber(token)
    ensures 0 <= value <= 99
  {
    if |token| == 1 then DigitValue(token[0]) else DigitValue(token[0]) * 10 + DigitValue(token[1])
  }

  /** The word that every JavaScript object has a property for, whatever its table holds. The other
      inherited names have a capital letter or an underscore, so no folded text holds them. */
  const INHERITED := "constructor"

  /** What a reported span is worth: a number, or the inherited property. */
  datatype Heard = Number(number: int) | NotANumber

  /** table[token], with null and undefined as None. */
  function Lookup(table: map<string, int>, token: string): Option<Heard> {
    if token in table then Some(Number(table[token]))
    else if token == INHERITED then Some(NotANumber)
    else None
  }

  /** What one word says, if anything. */
  function NumberValue(token: string, locale: Locale): Option<Heard> {
    if IsShortNumber(token) then Some(Number(ParseDigits(token))) else Lookup(WordNumberMap(locale), token)
  }

  /** The digit of a character, told by the ten characters themselves. */
  predicate IsDigitOf(c: char, d: nat) { d < 10 && c == "0123456789"[d] }

  /** One or two digits say the number they write, with or without a leading zero. */
  lemma DigitsSayTheirNumber(token: string, tens: nat, ones: nat, locale: Locale)
    requires tens < 10 && ones < 10
    requires (|token| == 1 && tens == 0 && IsDigitOf(token[0], ones))
      || (|token| == 2 && IsDigitOf(token[0], tens) && IsDigitOf(token[1], ones))
    ensures NumberValue(token, locale) == Some(Number(10 * tens + ones))
  {
  }

  lemma OtherLengthsSayNothing(token: string, locale: Locale)
    requires |token| != 1 && |token| != 2 && token !in WordNumberMap(locale) && token != INHERITED
    ensures NumberValue(token, locale) == None
  {
  }

  /** The Spanish words from one to thirty. */
  const SPANISH := [
    "uno", "dos", "tres", "cuatro", "cinco", "seis", "siete", "ocho", "nueve", "diez", "once", "doce", "trece",
    "catorce", "quince", "dieciseis", "diecisiete", "dieciocho", "diecinueve", "veinte", "veintiuno", "veintidos",
    "veintitres", "veinticuatro", "veinticinco", "veintiseis", "veintisiete", "veintiocho", "veintinueve", "treinta"]

  /** The English words from one to twenty. */
  const ENGLISH := [
    "one", "two", "three", "four", "five", "six", "seven", "eight", "nine", "ten", "eleven", "twelve", "thirteen",
    "fourteen", "fifteen", "sixteen", "seventeen", "eighteen", "nineteen", "twenty"]

  datatype NumberToken = NumberToken(value: Heard, start: nat, end: nat)

  /** The numbers among the words, in order, each with the place where its word stands. */
  function NumberSpans(words: seq<string>, locale: Locale): seq<NumberToken> {
    if words == [] then []
    else
      var last := |words| - 1;
      NumberSpans(words[..last], locale) +
      if NumberValue(words[last], locale).Some?
      then [NumberToken(NumberValue(words[last], locale).value, StartOf(words, last), EndOf(words, last))] else []
  }

  predicate OccursAt(text: string, pattern: string, j: int) {
    0 <= j <= |text| - |pattern| && text[j..j + |pattern|] == pattern
  }

  /** text.indexOf(pattern, from). */
  method IndexOf(text: string, pattern: string, from: nat) returns (k: int)
    requires from <= |text|
    ensures k == -1 || (from <= k && OccursAt(text, pattern, k))
    ensures forall j :: from <= j && (k == -1 || j < k) ==> !OccursAt(text, pattern, j)
  {
    k := from;
    while k + |pattern| <= |text|
      invariant from <= k
      invariant forall j :: from <= j < k ==> !OccursAt(text, pattern, j)
    {
      if OccursAt(text, pattern, k) { return; }
      k := k + 1;
    }
    k := -1;
  }

  /** The cursor stands at the end of the previous word: the next word cannot be found before its place. */
  lemma NotBeforeItsPlace(words: seq<string>, i: nat, j: int)
    requires AreWords(words) && 0 < i < |words| && EndOf(words, i - 1) <= j < StartOf(words, i)
    ensures !OccursAt(Join(words), words[i], j)
  {
    WordStands(words, i);
    JoinUpTo(words, i - 1);
    assert j == StartOf(words, i) - 1;
    NoWordAtSpace(Join(words), words[i], j);
  }

  lemma NoWordAtSpace(s: string, w: string, j: nat)
    requires IsWord(w) && j < |s| && s[j] == ' '
    ensures !OccursAt(s, w, j)
  {
    if j + |w| <= |s| {
      assert s[j..j + |w|][0] == ' ';
      assert w[0] in w;
    }
  }

  lemma SpansOneMore(words: seq<string>, i: nat, locale: Locale)
    requires i < |words|
    ensures NumberSpans(words[..i + 1], locale) == NumberSpans(words[..i], locale) +
      if NumberValue(words[i], locale).Some?
      then [NumberToken(NumberValue(words[i], locale).value, StartOf(words, i), EndOf(words, i))] else []
  {
    assert words[..i + 1][..i] == words[..i];
  }

  /** Searching from the end of the previous word finds the word at its own place. */
  lemma SearchFindsWord(words: seq<string>, i: nat, cursor: nat, k: int)
    requires AreWords(words) && i < |words| && cursor == (if i == 0 then 0 else EndOf(words, i - 1))
    requires k == -1 || (cursor <= k && OccursAt(Join(words), words[i], k))
    requires forall j :: cursor <= j && (k == -1 || j < k) ==> !OccursAt(Join(words), words[i], j)
    ensures k == StartOf(words, i) && k + |words[i]| == EndOf(words, i) <= |Join(words)|
  {
    WordStands(words, i);
    if i > 0 { JoinUpTo(words, i - 1); }
    var start := StartOf(words, i);
    assert OccursAt(Join(words), words[i], start);
    if 0 <= k < start {
      NotBeforeItsPlace(words, i, k);
    }
  }

  lemma CursorInside(words: seq<string>, i: nat)
    requires i < |words|
    ensures EndOf(words, i) <= |Join(words)|
  {
    WordStands(words, i);
  }

  /** Every word of a single-spaced phrase that says something is reported at its own place, and nothing
      else. The branch for compounds is never taken: their first word is a number by itself. */
  method ParseNumberTokens(normalized: string, locale: Locale) returns (found: seq<NumberToken>)
    requires SingleSpaced(normalized)
    ensures found == NumberSpans(Words(normalized), locale)
  {
    hide Words, Join, StartOf, EndOf, OccursAt, ParseDigits, SingleSpaced;
    var tokens := Words(normalized);
    found := [];
    var cursor := 0;
    var i := 0;
    WordsAreWords(normalized);
    JoinOfWords(normalized);
    while i < |tokens|
      invariant i <= |tokens|
      invariant cursor == if i == 0 then 0 else EndOf(tokens, i - 1)
      invariant found == NumberSpans(tokens[..i], locale)
    {
      var token := tokens[i];
      if i > 0 { CursorInside(tokens, i - 1); }
      var start := IndexOf(normalized, token, cursor);
      SearchFindsWord(tokens, i, cursor, start);
      SpansOneMore(tokens, i, locale);
      hide NumberSpans;
      var end := start + |token|;
      cursor := end;
      if IsShortNumber(token) {
        found := found + [NumberToken(Number(ParseDigits(token)), start, end)];
      } else if Lookup(WordNumberMap(locale), token).Some? {
        found := found + [NumberToken(Lookup(WordNumberMap(locale), token).value, start, end)];
      } else if locale == EN && i + 1 < |tokens| {
        var next := tokens[i + 1];
        if Lookup(EN_COMPOUND_PREFIX, token).Some? && Lookup(EN_UNIT_SUFFIX, next).Some? {
          assert false;
        }
      }
      i := i + 1;
    }
    assert tokens[..|tokens|] == tokens;
  }

  /** "twenty five" is heard as 20, followed by 5. */
  lemma CompoundsAreNotRead(prefix: string, unit: string)
    requires prefix in EN_COMPOUND_PREFIX && unit in EN_UNIT_SUFFIX
    ensures var heard := NumberSpans([prefix, unit], EN);
      && |heard| == 2
      && heard[0].value == Number(EN_COMPOUND_PREFIX[prefix]) && heard[1].value == Number(EN_UNIT_SUFFIX[unit])
  {
    PrefixIsNumber(prefix);
    UnitIsNumber(unit);
    var words := [prefix, unit];
    SpansOneMore(words, 0, EN);
    SpansOneMore(words, 1, EN);
    hide NumberValue, StartOf, EndOf;
    assert words[..0] == [] && words[..2] == words;
  }

  lemma PrefixIsNumber(prefix: string)
    requires prefix in EN_COMPOUND_PREFIX
    ensures NumberValue(prefix, EN) == Some(Number(EN_COMPOUND_PREFIX[prefix]))
  {
  }

  lemma UnitIsNumber(unit: string)
    requires unit in EN_UNIT_SUFFIX
    ensures NumberValue(unit, EN) == Some(Number(EN_UNIT_SUFFIX[unit]))
  {
  }

  lemma SpanInFront(words: seq<string>, i: nat, locale: Locale, span: NumberToken)
    requires i < |words| - 1
    ensures SpanOf(words, i, locale, span) <==> SpanOf(words[..|words| - 1], i, locale, span)
  {
    assert words[..|words| - 1][..i] == words[..i];
  }

  /** Each reported span holds exactly one word that says something, with its value. */
  lemma {:induction false} SpansHoldNumberWords(words: seq<string>, locale: Locale)
    ensures forall k :: 0 <= k < |NumberSpans(words, locale)| ==>
      HoldsNumberWord(words, locale, NumberSpans(words, locale)[k])
  {
    if words != [] {
      var last := |words| - 1;
      var front, spans, earlier := words[..last], NumberSpans(words, locale), NumberSpans(words[..last], locale);
      SpansHoldNumberWords(front, locale);
      hide StartOf, EndOf, NumberValue;
      forall k | 0 <= k < |spans| ensures HoldsNumberWord(words, locale, spans[k]) {
        if k < |earlier| {
          assert HoldsNumberWord(front, locale, earlier[k]);
          var i :| 0 <= i < |front| && SpanOf(front, i, locale, earlier[k]);
          SpanInFront(words, i, locale, spans[k]);
        } else {
          assert SpanOf(words, last, locale, spans[k]);
        }
      }
    }
  }

  /** Each number word is reported. */
  lemma {:induction false} NumberWordsAreReported(words: seq<string>, locale: Locale, i: nat)
    requires i < |words| && NumberValue(words[i], locale).Some?
    ensures HasSpan(words, i, locale, NumberSpans(words, locale))
  {
    var last := |words| - 1;
    var front, spans, earlier := words[..last], NumberSpans(words, locale), NumberSpans(words[..last], locale);
    hide StartOf, EndOf, NumberValue;
    if i < last {
      NumberWordsAreReported(front, locale, i);
      var k :| 0 <= k < |earlier| && SpanOf(front, i, locale, earlier[k]);
      SpanInFront(words, i, locale, earlier[k]);
      assert SpanOf(words, i, locale, spans[k]);
    } else {
      assert SpanOf(words, i, locale, spans[|earlier|]);
    }
  }

  /** Spans inside a text of this length, not empty, increasing, and at least one character apart. */
  predicate Apart(spans: seq<NumberToken>, length: nat) {
    && (forall k :: 0 <= k < |spans| ==> 0 <= spans[k].start < spans[k].end <= length)
    && (forall j, k :: 0 <= j < k < |spans| ==> spans[j].end < spans[k].start)
  }

  lemma {:induction false} SpansAreApart(words: seq<string>, locale: Locale)
    requires AreWords(words)
    ensures Apart(NumberSpans(words, locale), |Join(words)|)
  {
    if words != [] {
      var last := |words| - 1;
      SpansAreApart(words[..last], locale);
      JoinUpTo(words, last);
      assert words[..last + 1] == words && IsWord(words[last]);
      var earlier := NumberSpans(words[..last], locale);
      if NumberValue(words[last], locale).Some? {
        ApartOneMore(earlier, NumberSpans(words, locale)[|earlier|], |Join(words[..last])|);
      }
    }
  }

  lemma ApartOneMore(spans: seq<NumberToken>, span: NumberToken, length: nat)
    requires Apart(spans, length) && 0 <= span.start < span.end && (spans != [] ==> length < span.start)
    ensures Apart(spans + [span], span.end)
  {
    if spans != [] {
      assert spans[0].end <= length;
    }
  }

  /** The n-th Spanish word says n, and so does the n-th English one. */
  lemma WordsSayTheirNumber(n: nat)
    ensures 1 <= n <= 30 ==> NumberValue(SPANISH[n - 1], ES) == Some(Number(n))
    ensures 1 <= n <= 20 ==> NumberValue(ENGLISH[n - 1], EN) == Some(Number(n))
  {
    if 1 <= n <= 30 { SpanishWord(n); }
    if 1 <= n <= 20 { EnglishWord(n); }
  }

  lemma SpanishWord(n: nat)
    requires 1 <= n <= 30
    ensures NumberValue(SPANISH[n - 1], ES) == Some(Number(n))
  {
    if n <= 10 { FirstSpanishWords(n); } else if n <= 20 { MoreSpanishWords(n); } else { LastSpanishWords(n); }
  }

  lemma FirstSpanishWords(n: nat)
    requires 1 <= n <= 10
    ensures NumberValue(SPANISH[n - 1], ES) == Some(Number(n))
  {
  }

  lemma MoreSpanishWords(n: nat)
    requires 11 <= n <= 20
    ensures NumberValue(SPANISH[n - 1], ES) == Some(Number(n))
  {
  }

  lemma LastSpanishWords(n: nat)
    requires 21 <= n <= 30
    ensures NumberValue(SPANISH[n - 1], ES) == Some(Number(n))
  {
  }

  lemma OtherForms()
    ensures NumberValue("un", ES) == NumberValue("una", ES) == Some(Number(1))
    ensures NumberValue("veintiun", ES) == Some(Number(21)) && NumberValue("thirty", EN) == Some(Number(30))
  {
  }

  lemma EnglishWord(n: nat)
    requires 1 <= n <= 20
    ensures NumberValue(ENGLISH[n - 1], EN) == Some(Number(n))
  {
  }

  lemma HeardAsNotANumber(word: string, locale: Locale)
    ensures NumberValue(word, locale) == Some(NotANumber) <==> word == INHERITED
  {
    InheritedIsNoNumber(locale);
  }

  lemma InheritedIsNoNumber(locale: Locale)
    ensures |INHERITED| == 11 && INHERITED !in WordNumberMap(locale)
  {
    if locale == ES {
      assert INHERITED[0] == 'c' && forall key :: key in WORD_NUMBERS_ES ==> |key| != 11 || key[0] != 'c';
    } else {
      assert forall key :: key in WORD_NUMBERS_EN ==> |key| != 11;
    }
  }

  /** Every span holds a number exactly when the phrase does not say the inherited name. */
  lemma SpansAreNumbersIff(words: seq<string>, locale: Locale)
    ensures (forall k :: 0 <= k < |NumberSpans(words, locale)| ==> NumberSpans(words, locale)[k].value.Number?)
       <==> INHERITED !in words
  {
    var spans := NumberSpans(words, locale);
    SpansHoldNumberWords(words, locale);
    hide NumberSpans, NumberValue, StartOf, EndOf;
    if i :| 0 <= i < |words| && words[i] == INHERITED {
      HeardAsNotANumber(words[i], locale);
      NumberWordsAreReported(words, locale, i);
      var k :| 0 <= k < |spans| && SpanOf(words, i, locale, spans[k]);
      assert !spans[k].value.Number?;
    }
    if k :| 0 <= k < |spans| && !spans[k].value.Number? {
      assert HoldsNumberWord(words, locale, spans[k]);
      var i :| 0 <= i < |words| && SpanOf(words, i, locale, spans[k]);
      HeardAsNotANumber(words[i], locale);
    }
  }

  // The jersey that a phrase names

  /** Both branches of the source answer with the first value. */
  function PickJerseyNumber(spans: seq<NumberToken>): Option<Heard> {
    if spans == [] then None else Some(spans[0].value)
  }

  /** The first word that is heard as a number. */
  predicate FirstHeard(words: seq<string>, locale: Locale, i: nat)
    requires i < |words|
  {
    NumberValue(words[i], locale).Some? && forall j :: 0 <= j < i ==> NumberValue(words[j], locale).None?
  }

  lemma FirstHeardInFront(words: seq<string>, locale: Locale, i: nat)
    requires i < |words| - 1 && FirstHeard(Front(words), locale, i)
    ensures FirstHeard(words, locale, i)
  {
  }

  lemma NobodyHeardInFront(words: seq<string>, locale: Locale)
    requires words != [] && NumberValue(words[|words| - 1], locale).Some?
    requires forall i :: 0 <= i < |words| - 1 ==> NumberValue(Front(words)[i], locale).None?
    ensures FirstHeard(words, locale, |words| - 1)
  {
    hide NumberValue;
    forall j | 0 <= j < |words| - 1 ensures NumberValue(words[j], locale).None? {
      assert words[j] == Front(words)[j];
    }
  }

  /** The jersey is what the first such word says; there is none when no word says anything. */
  lemma {:induction false} JerseyIsFirstHeard(words: seq<string>, locale: Locale)
    ensures match PickJerseyNumber(NumberSpans(words, locale))
      case None => forall i :: 0 <= i < |words| ==> NumberValue(words[i], locale).None?
      case Some(heard) =>
        (exists i :: 0 <= i < |words| && FirstHeard(words, locale, i) && NumberValue(words[i], locale) == Some(heard))
  {
    if words != [] {
      var last := |words| - 1;
      var front, earlier := Front(words), NumberSpans(Front(words), locale);
      JerseyIsFirstHeard(front, locale);
      LastWord(words, locale);
      hide NumberSpans, NumberValue, WithoutNumbers, StartOf, EndOf, FirstHeard;
      if earlier != [] {
        var i :| 0 <= i < last && FirstHeard(front, locale, i)
          && NumberValue(front[i], locale) == Some(earlier[0].value);
        FirstHeardInFront(words, locale, i);
      } else if NumberValue(words[last], locale).Some? {
        NobodyHeardInFront(words, locale);
      }
    }
  }

  /** Said before every number, the inherited name is taken for the jersey, which no player wears. */
  lemma InheritedNameHidesJersey(words: seq<string>, locale: Locale)
    ensures PickJerseyNumber(NumberSpans([INHERITED] + words, locale)) == Some(NotANumber)
  {
    var phrase := [INHERITED] + words;
    HeardAsNotANumber(INHERITED, locale);
    JerseyIsFirstHeard(phrase, locale);
    hide NumberValue, NumberSpans;
    assert phrase[0] == INHERITED;
  }

  predicate HoldsNumberWord(words: seq<string>, locale: Locale, span: NumberToken) {
    exists i :: 0 <= i < |words| && SpanOf(words, i, locale, span)
  }

  predicate HasSpan(words: seq<string>, i: nat, locale: Locale, spans: seq<NumberToken>)
    requires i < |words|
  {
    exists k :: 0 <= k < |spans| && SpanOf(words, i, locale, spans[k])
  }

  predicate SpanOf(words: seq<string>, i: nat, locale: Locale, span: NumberToken)
    requires i < |words|
  {
    && NumberValue(words[i], locale) == Some(span.value)
    && span.start == StartOf(words, i) && span.end == EndOf(words, i)
  }

  // Cutting the numbers out

  /** One space in place of the span; slice() stops at the end of the text. */
  function Cut(s: string, span: NumberToken): string {
    s[..Min(span.start, |s|)] + " " + s[Min(span.end, |s|)..]
  }

  /** Stands behind the tokens that start later, and behind those that start at the same place. */
  function InsertToken(sorted: seq<NumberToken>, token: NumberToken): (r: seq<NumberToken>)
    ensures multiset(r) == multiset(sorted) + multiset{token}
  {
    if sorted == [] || sorted[0].start < token.start then [token] + sorted
    else
      assert sorted == [sorted[0]] + sorted[1..];
      [sorted[0]] + InsertToken(sorted[1..], token)
  }

  /** sort((a, b) => b.start - a.start), which is stable. */
  function LastFirst(tokens: seq<NumberToken>): (r: seq<NumberToken>)
    ensures multiset(r) == multiset(tokens)
  {
    if tokens == [] then []
    else
      assert tokens == tokens[..|tokens| - 1] + [tokens[|tokens| - 1]];
      InsertToken(LastFirst(tokens[..|tokens| - 1]), tokens[|tokens| - 1])
  }

  predicate StartsGoDown(tokens: seq<NumberToken>) {
    forall j, k :: 0 <= j < k < |tokens| ==> tokens[j].start >= tokens[k].start
  }

  lemma {:induction false} InsertKeepsOrder(sorted: seq<NumberToken>, token: NumberToken)
    requires StartsGoDown(sorted)
    ensures StartsGoDown(InsertToken(sorted, token))
  {
    if sorted != [] && sorted[0].start >= token.start {
      InsertKeepsOrder(sorted[1..], token);
      var rest := InsertToken(sorted[1..], token);
      forall k | 0 <= k < |rest| ensures rest[k].start <= sorted[0].start {
        assert rest[k] in multiset(rest);
        assert rest[k] == token || rest[k] in sorted[1..];
      }
    }
  }

  /** The sorted list holds the same tokens, none before one that starts later. */
  lemma {:induction false} LastFirstIsSorted(tokens: seq<NumberToken>)
    ensures StartsGoDown(LastFirst(tokens)) && multiset(LastFirst(tokens)) == multiset(tokens)
  {
    if tokens != [] {
      LastFirstIsSorted(tokens[..|tokens| - 1]);
      InsertKeepsOrder(LastFirst(tokens[..|tokens| - 1]), tokens[|tokens| - 1]);
    }
  }

  /** The tokens that start here, in their order. */
  function StartingAt(tokens: seq<NumberToken>, start: nat): seq<NumberToken> {
    if tokens == [] then []
    else (if tokens[0].start == start then [tokens[0]] else []) + StartingAt(tokens[1..], start)
  }

  lemma StartingAtFirst(tokens: seq<NumberToken>, start: nat)
    requires tokens != []
    ensures StartingAt(tokens, start)
         == (if tokens[0].start == start then [tokens[0]] else []) + StartingAt(tokens[1..], start)
  {
  }

  lemma {:induction false} StartingAtConcat(a: seq<NumberToken>, b: seq<NumberToken>, start: nat)
    ensures StartingAt(a + b, start) == StartingAt(a, start) + StartingAt(b, start)
  {
    if a == [] {
      assert a + b == b;
    } else {
      StartingAtConcat(a[1..], b, start);
      assert (a + b)[0] == a[0] && (a + b)[1..] == a[1..] + b;
      hide *;
      StartingAtFirst(a + b, start);
      StartingAtFirst(a, start);
      assert StartingAt((a + b)[1..], start) == StartingAt(a[1..], start) + StartingAt(b, start);
    }
  }

  lemma {:induction false} NoneStartsAt(tokens: seq<NumberToken>, start: nat)
    requires forall k :: 0 <= k < |tokens| ==> tokens[k].start < start
    ensures StartingAt(tokens, start) == []
  {
    if tokens != [] {
      NoneStartsAt(tokens[1..], start);
    }
  }

  lemma StartingAtOne(token: NumberToken, start: nat)
    ensures StartingAt([token], start) == if token.start == start then [token] else []
  {
    StartingAtFirst([token], start);
    assert [token][1..] == [];
  }

  lemma InFrontIsStable(sorted: seq<NumberToken>, token: NumberToken, start: nat)
    requires forall k :: 0 <= k < |sorted| ==> sorted[k].start < token.start
    ensures StartingAt([token] + sorted, start) == StartingAt(sorted + [token], start)
  {
    StartingAtConcat([token], sorted, start);
    StartingAtConcat(sorted, [token], start);
    StartingAtOne(token, start);
    if start == token.start {
      NoneStartsAt(sorted, start);
    }
    hide *;
  }

  lemma InsertFirst(sorted: seq<NumberToken>, token: NumberToken)
    requires StartsGoDown(sorted)
    ensures if sorted == [] || sorted[0].start < token.start then
        && InsertToken(sorted, token) == [token] + sorted
        && forall k :: 0 <= k < |sorted| ==> sorted[k].start < token.start
      else
        InsertToken(sorted, token) == [sorted[0]] + InsertToken(sorted[1..], token) && StartsGoDown(sorted[1..])
  {
  }

  lemma {:induction false} InsertIsStable(sorted: seq<NumberToken>, token: NumberToken, start: nat)
    requires StartsGoDown(sorted)
    ensures StartingAt(InsertToken(sorted, token), start) == StartingAt(sorted + [token], start)
  {
    hide *;
    InsertFirst(sorted, token);
    if sorted == [] || sorted[0].start < token.start {
      InFrontIsStable(sorted, token, start);
    } else {
      var first, rest := [sorted[0]], sorted[1..];
      InsertIsStable(rest, token, start);
      StartingAtConcat(first, InsertToken(rest, token), start);
      StartingAtConcat(first, rest + [token], start);
      assert sorted + [token] == first + (rest + [token]);
    }
  }

  /** Tokens that start at the same place keep their order. */
  lemma {:induction false} LastFirstIsStable(tokens: seq<NumberToken>, start: nat)
    ensures StartingAt(LastFirst(tokens), start) == StartingAt(tokens, start)
  {
    if tokens != [] {
      var front, last := tokens[..|tokens| - 1], tokens[|tokens| - 1];
      LastFirstIsStable(front, start);
      LastFirstIsSorted(front);
      InsertIsStable(LastFirst(front), last, start);
      StartingAtConcat(LastFirst(front), [last], start);
      StartingAtConcat(front, [last], start);
      assert tokens == front + [last];
    }
  }

  function CutInTurn(s: string, tokens: seq<NumberToken>): string
    decreases |tokens|
  {
    if tokens == [] then s else CutInTurn(Cut(s, tokens[0]), tokens[1..])
  }

  function CutAll(s: string, tokens: seq<NumberToken>): string { CutInTurn(s, LastFirst(tokens)) }

  function WithoutNumbers(words: seq<string>, locale: Locale): seq<string> {
    if words == [] then []
    else
      var last := |words| - 1;
      WithoutNumbers(words[..last], locale) + if NumberValue(words[last], locale).Some? then [] else [words[last]]
  }

  /** These words still stand at the front of `s`. */
  predicate Untouched(s: string, words: seq<string>) {
    var head := Join(words);
    |head| <= |s| && s[..|head|] == head && (words != [] && |head| < |s| ==> s[|head|] == ' ')
  }

  function Front(words: seq<string>): (front: seq<string>)
    requires words != []
    ensures |front| < |words|
  {
    words[..|words| - 1]
  }

  /** The last word of a text ends it; before it stand the others and a space. */
  lemma JoinEnds(words: seq<string>)
    requires words != []
    ensures var last := |words| - 1;
      && EndOf(words, last) == |Join(words)|
      && Join(words)[..StartOf(words, last)] == (if last == 0 then "" else Join(Front(words)) + " ")
  {
    JoinUpTo(words, |words| - 1);
    hide Join, EndOf;
    assert words[..|words|] == words;
  }

  lemma UntouchedLess(s: string, words: seq<string>)
    requires words != [] && Untouched(s, words)
    ensures Untouched(s, Front(words))
  {
    var head, less := Join(words), Join(Front(words));
    JoinIsPrefix(words, |words| - 1);
    assert s[..|less|] == s[..|head|][..|less|];
    if |words| > 1 {
      assert head[|less|] == s[..|head|][|less|];
    }
  }

  lemma WordsBeforeCut(s: string, words: seq<string>)
    requires AreWords(words) && words != [] && Untouched(s, words)
    ensures var last := |words| - 1;
      && StartOf(words, last) <= EndOf(words, last) <= |s|
      && s[..StartOf(words, last)] == (if last == 0 then "" else Join(Front(words)) + " ")
      && Words(s[..StartOf(words, last)]) == Front(words)
  {
    JoinEnds(words);
    var head, less, start := Join(words), Join(Front(words)), StartOf(words, |words| - 1);
    assert s[..start] == s[..|head|][..start];
    WordsOfJoin(Front(words));
    WordsAroundSpace(less, "");
    assert less + " " + "" == less + " ";
  }

  lemma WordsAfterCut(s: string, words: seq<string>, rest: seq<string>)
    requires AreWords(words) && words != [] && Untouched(s, words)
    requires Words(s) == words + rest
    ensures EndOf(words, |words| - 1) <= |s| && Words(s[EndOf(words, |words| - 1)..]) == rest
  {
    JoinEnds(words);
    WordsOfJoin(words);
    WordsSplit(s, |Join(words)|);
    hide Words, Join, EndOf;
    assert rest == (words + rest)[|words|..];
  }

  /** Cutting the last untouched word away takes exactly this word out of the words of the text. */
  lemma CutTakesOneWord(s: string, words: seq<string>, rest: seq<string>, span: NumberToken)
    requires AreWords(words) && words != [] && Untouched(s, words)
    requires Words(s) == words + rest
    requires span.start == StartOf(words, |words| - 1) && span.end == EndOf(words, |words| - 1)
    ensures span.start <= span.end <= |s| && Untouched(Cut(s, span), Front(words))
    ensures Words(Cut(s, span)) == Front(words) + rest
  {
    WordsBeforeCut(s, words);
    WordsAfterCut(s, words, rest);
    WordsAroundSpace(s[..span.start], s[span.end..]);
    PrefixAfterCut(s, span, Join(Front(words)), |words| == 1);
  }

  lemma PrefixAfterCut(s: string, span: NumberToken, less: string, first: bool)
    requires span.start <= span.end <= |s|
    requires s[..span.start] == if first then "" else less + " "
    requires first ==> less == ""
    ensures |less| < |Cut(s, span)| && Cut(s, span)[..|less|] == less && Cut(s, span)[|less|] == ' '
  {
    var c := Cut(s, span);
    assert c == if first then " " + s[span.end..] else less + (" " + " " + s[span.end..]);
  }

  /** The rightmost span is cut first, and the others still stand in the text. */
  lemma CutAllOneMore(s: string, earlier: seq<NumberToken>, span: NumberToken)
    requires Apart(earlier + [span], |s|)
    ensures span.end <= |s| && Apart(earlier, |Cut(s, span)|)
    ensures CutAll(s, earlier + [span]) == CutAll(Cut(s, span), earlier)
  {
    RightmostLast(s, earlier, span);
    RightmostFirst(earlier, span);
    hide Apart, LastFirst, Cut;
    assert ([span] + LastFirst(earlier))[1..] == LastFirst(earlier);
  }

  lemma RightmostLast(s: string, earlier: seq<NumberToken>, span: NumberToken)
    requires Apart(earlier + [span], |s|)
    ensures span.end <= |s| && Apart(earlier, |Cut(s, span)|)
    ensures forall k :: 0 <= k < |earlier| ==> earlier[k].start < span.start
  {
    var spans := earlier + [span];
    assert spans[|earlier|] == span;
    assert forall k :: 0 <= k < |earlier| ==> earlier[k] == spans[k] && earlier[k].end < spans[|earlier|].start;
  }

  lemma RightmostFirst(earlier: seq<NumberToken>, span: NumberToken)
    requires forall k :: 0 <= k < |earlier| ==> earlier[k].start < span.start
    ensures LastFirst(earlier + [span]) == [span] + LastFirst(earlier)
  {
    var spans, sorted := earlier + [span], LastFirst(earlier);
    assert spans[..|spans| - 1] == earlier && LastFirst(spans) == InsertToken(sorted, span);
    hide LastFirst;
    if sorted != [] {
      assert sorted[0] in multiset(sorted) && sorted[0] in earlier;
    }
  }

  /** A text whose untouched words are `words`, with `rest` after them. */
  predicate Holds(s: string, words: seq<string>, rest: seq<string>) {
    AreWords(words) && Untouched(s, words) && Words(s) == words + rest
  }

  /** When the last untouched word is no number, it belongs to the rest. */
  lemma KeepLast(s: string, words: seq<string>, rest: seq<string>)
    requires words != [] && Holds(s, words, rest)
    ensures Holds(s, Front(words), [words[|words| - 1]] + rest)
  {
    UntouchedLess(s, words);
    hide Words, Untouched, IsWord;
    assert words + rest == Front(words) + ([words[|words| - 1]] + rest);
  }

  /** When it is a number, it is cut. */
  lemma CutLast(s: string, words: seq<string>, rest: seq<string>, span: NumberToken)
    requires words != [] && Holds(s, words, rest)
    requires span.start == StartOf(words, |words| - 1) && span.end == EndOf(words, |words| - 1)
    ensures span.start <= span.end <= |s| && Holds(Cut(s, span), Front(words), rest)
  {
    CutTakesOneWord(s, words, rest, span);
    hide Words, Untouched, Cut, IsWord;
  }

  /** Each cut leaves all earlier spans where they were, so in the end exactly the reported words are gone. */
  lemma {:induction false} CutAllDropsNumbers(s: string, words: seq<string>, rest: seq<string>, locale: Locale)
    requires Holds(s, words, rest) && Apart(NumberSpans(words, locale), |s|)
    ensures Words(CutAll(s, NumberSpans(words, locale))) == WithoutNumbers(words, locale) + rest
    decreases |words|
  {
    hide *;
    if words == [] {
      NothingLeft(s, words, rest, locale);
    } else {
      var last, front := |words| - 1, Front(words);
      LastWord(words, locale);
      if NumberValue(words[last], locale).Some? {
        var span := NumberToken(NumberValue(words[last], locale).value, StartOf(words, last), EndOf(words, last));
        CutAllOneMore(s, NumberSpans(front, locale), span);
        CutLast(s, words, rest, span);
        CutAllDropsNumbers(Cut(s, span), front, rest, locale);
      } else {
        KeepLast(s, words, rest);
        CutAllDropsNumbers(s, front, [words[last]] + rest, locale);
        var kept := WithoutNumbers(front, locale);
        assert (kept + [words[last]]) + rest == kept + ([words[last]] + rest);
      }
    }
  }

  lemma NothingLeft(s: string, words: seq<string>, rest: seq<string>, locale: Locale)
    requires words == [] && Holds(s, words, rest) && Apart(NumberSpans(words, locale), |s|)
    ensures Words(CutAll(s, NumberSpans(words, locale))) == WithoutNumbers(words, locale) + rest
  {
  }

  lemma LastWord(words: seq<string>, locale: Locale)
    requires words != []
    ensures var last, front := |words| - 1, Front(words);
      if NumberValue(words[last], locale).Some? then
        && WithoutNumbers(words, locale) == WithoutNumbers(front, locale)
        && NumberSpans(words, locale) == NumberSpans(front, locale)
             + [NumberToken(NumberValue(words[last], locale).value, StartOf(words, last), EndOf(words, last))]
      else
        && WithoutNumbers(words, locale) == WithoutNumbers(front, locale) + [words[last]]
        && NumberSpans(words, locale) == NumberSpans(front, locale)
  {
  }

  /** Replaces the spans by spaces, last one first, and collapses the spaces that are left. */
  method StripNumberTokens(normalized: string, tokens: seq<NumberToken>) returns (stripped: string)
    ensures stripped == if tokens == [] then normalized else CollapseSpaces(CutAll(normalized, tokens))
  {
    if tokens == [] { return normalized; }
    var sorted, result := LastFirst(tokens), normalized;
    hide LastFirst, Cut;
    for k := 0 to |sorted|
      invariant CutInTurn(result, sorted[k..]) == CutAll(normalized, tokens)
    {
      assert sorted[k..][1..] == sorted[k + 1..];
      result := Cut(result, sorted[k]);
    }
    return CollapseSpaces(result);
  }

  /** What is left of a phrase are its words that are not reported, single-spaced and in order. */
  lemma StrippedPhrase(s: string, locale: Locale)
    requires SingleSpaced(s)
    ensures var words := Words(s);
      var spans := NumberSpans(words, locale);
      && Apart(spans, |s|)
      && (if spans == [] then s else CollapseSpaces(CutAll(s, spans))) == Join(WithoutNumbers(words, locale))
  {
    var words := Words(s);
    JoinOfWords(s);
    WordsAreWords(s);
    SpansAreApart(words, locale);
    assert words + [] == words && s[..|s|] == s;
    CutAllDropsNumbers(s, words, [], locale);
    var spans := NumberSpans(words, locale);
    if spans != [] {
      CollapseJoinsWords(CutAll(s, spans));
      assert WithoutNumbers(words, locale) + [] == WithoutNumbers(words, locale);
    } else {
      NothingToDrop(words, locale);
    }
  }

  lemma {:induction false} NothingToDrop(words: seq<string>, locale: Locale)
    requires NumberSpans(words, locale) == []
    ensures WithoutNumbers(words, locale) == words
  {
    if words != [] {
      NothingToDrop(words[..|words| - 1], locale);
    }
  }

  function WithoutFillers(words: seq<string>, locale: Locale): seq<string> {
    if words == [] then []
    else
      var last := |words| - 1;
      WithoutFillers(words[..last], locale) + if words[last] in Fillers(locale) then [] else [words[last]]
  }

  /** Each language has its own fillers: only two words are one in both. */
  lemma FillersOfLanguages()
    ensures Fillers(ES) * Fillers(EN) == {"a", "num"}
    ensures {"el", "los", "dorsal", "jugador"} <= Fillers(ES) && {"the", "of", "jersey", "player"} <= Fillers(EN)
  {
  }

  /** `kept` is what is left of `words`, in order, when exactly those with `keep` stay. */
  ghost predicate IsFiltered(words: seq<string>, kept: seq<string>, keep: string -> bool) {
    exists places: seq<nat> :: PlacesOf(words, kept, keep, places)
  }

  ghost predicate PlacesOf(words: seq<string>, kept: seq<string>, keep: string -> bool, places: seq<nat>) {
    && |places| == |kept|
    && (forall k :: 0 <= k < |places| ==> places[k] < |words| && kept[k] == words[places[k]])
    && (forall j, k :: 0 <= j < k < |places| ==> places[j] < places[k])
    && (forall i :: 0 <= i < |words| ==> (keep(words[i]) <==> i in places))
  }

  lemma OneMorePlace(words: seq<string>, kept: seq<string>, keep: string -> bool, places: seq<nat>, last: string)
    requires PlacesOf(words, kept, keep, places)
    ensures IsFiltered(words + [last], kept + (if keep(last) then [last] else []), keep)
  {
    var more := places + if keep(last) then [|words|] else [];
    var now := kept + if keep(last) then [last] else [];
    forall i | 0 <= i < |words + [last]| ensures keep((words + [last])[i]) <==> i in more {
      if i < |words| {
        assert keep(words[i]) <==> i in places;
        assert i in more <==> i in places;
      }
    }
    assert PlacesOf(words + [last], now, keep, more);
  }

  /** Removing fillers keeps exactly the words that are none, in their order. */
  lemma {:induction false} FillersAreRemoved(words: seq<string>, locale: Locale)
    ensures IsFiltered(words, WithoutFillers(words, locale), w => w !in Fillers(locale))
  {
    var keep := w => w !in Fillers(locale);
    if words == [] {
      assert PlacesOf(words, [], keep, []);
    } else {
      var front, last := words[..|words| - 1], words[|words| - 1];
      var kept := WithoutFillers(front, locale);
      FillersAreRemoved(front, locale);
      assert WithoutFillers(words, locale) == kept + if keep(last) then [last] else [];
      var places :| PlacesOf(front, kept, keep, places);
      OneMorePlace(front, kept, keep, places, last);
      hide *;
      assert words == front + [last];
    }
  }

  /** Removing numbers keeps exactly the words that say nothing, in their order. */
  lemma {:induction false} NumbersAreRemoved(words: seq<string>, locale: Locale)
    ensures IsFiltered(words, WithoutNumbers(words, locale), w => NumberValue(w, locale).None?)
  {
    var keep := w => NumberValue(w, locale).None?;
    if words == [] {
      assert PlacesOf(words, [], keep, []);
    } else {
      var front, last := words[..|words| - 1], words[|words| - 1];
      var kept := WithoutNumbers(front, locale);
      NumbersAreRemoved(front, locale);
      assert WithoutNumbers(words, locale) == kept + if keep(last) then [last] else [];
      var places :| PlacesOf(front, kept, keep, places);
      OneMorePlace(front, kept, keep, places, last);
      hide *;
      assert words == front + [last];
    }
  }

  function RemoveFillerWords(normalized: string, locale: Locale): string {
    Join(WithoutFillers(Words(normalized), locale))
  }

  /** The words that actions are matched against: those of the phrase that are neither reported nor fillers. */
  lemma RemainderOfPhrase(s: string, locale: Locale)
    requires SingleSpaced(s)
    ensures Words(RemoveFillerWords(Join(WithoutNumbers(Words(s), locale)), locale))
      == WithoutFillers(WithoutNumbers(Words(s), locale), locale)
  {
    WordsAreWords(s);
    KeptAreWords(Words(s), locale);
    WordsOfJoin(WithoutNumbers(Words(s), locale));
    KeptAreWords(WithoutNumbers(Words(s), locale), locale);
    WordsOfJoin(WithoutFillers(WithoutNumbers(Words(s), locale), locale));
  }

  lemma {:induction false} KeptAreWords(words: seq<string>, locale: Locale)
    requires AreWords(words)
    ensures AreWords(WithoutNumbers(words, locale)) && AreWords(WithoutFillers(words, locale))
  {
    if words != [] {
      KeptAreWords(words[..|words| - 1], locale);
    }
  }
}
