/**
 * A vocabulary card and the parser that reads one from a line of the deck
 * file (`impl FromStr for Card`), with its error kinds and their messages.
 */
module Cards {
  import opened Text

  /** A drill item: the word shown as the prompt and the expected answer. */
  datatype Card = Card(word: string, translation: string)

  /** Why a line is not a card. */
  datatype CardError = MissingWord | MissingTranslation | TooManyFields

  datatype Option<T> = None | Some(value: T)

  /** The outcome of parsing one line. */
  datatype ParseResult = Ok(card: Card) | Err(error: CardError)

  /** The separator between the two fields of a line. */
  const Comma: char := ','

  /** The message that `Display` writes for each error kind. */
  function Message(e: CardError): string
  {
    match e
    case MissingWord => "missing word"
    case MissingTranslation => "missing translation"
    case TooManyFields => "too many fields"
  }

  /** The messages are exactly these three texts, and no two kinds share one. */
  lemma MessageTable(e: CardError, e': CardError)
    ensures Message(MissingWord) == "missing word"
    ensures Message(MissingTranslation) == "missing translation"
    ensures Message(TooManyFields) == "too many fields"
    ensures Message(e) == Message(e') ==> e == e'
  {
  }

  /** What a card made by the parser looks like: two non-empty comma-free fields. */
  predicate WellFormed(c: Card)
  {
    c.word != [] && c.translation != [] && Comma !in c.word && Comma !in c.translation
  }

  /** The one line that stands for a card: `word,translation`. */
  function Format(c: Card): string
  {
    c.word + [Comma] + c.translation
  }

  /** `fields.next().filter(|field| !field.is_empty())` on the field at index `i`. */
  function NonEmptyField(fields: seq<string>, i: nat): Option<string>
  {
    if i < |fields| && fields[i] != [] then Some(fields[i]) else None
  }

  /**
   * `Card::from_str`: split the line on commas; an absent or empty first
   * field is a missing word, an absent or empty second field a missing
   * translation, and any third field, even an empty one, is one too many.
   */
  function Parse(s: string): (r: ParseResult)
    ensures r.Ok? ==> WellFormed(r.card)
  {
    var fields := Split(s, Comma);
    match NonEmptyField(fields, 0)
    case None => Err(MissingWord)
    case Some(word) =>
      match NonEmptyField(fields, 1)
      case None => Err(MissingTranslation)
      case Some(translation) =>
        if 2 < |fields| then Err(TooManyFields)
        else Ok(Card(word, translation))
  }

  /** Any two non-empty comma-free texts joined by a comma parse back into that card. */
  lemma ParseRoundTrip(w: string, t: string)
    requires w != [] && t != [] && Comma !in w && Comma !in t
    ensures Parse(w + [Comma] + t) == Ok(Card(w, t))
  {
    var fields := [w, t];
    assert fields[1..] == [t];
    SplitJoin(fields, Comma);
  }

  /** A line parses into `c` exactly when `c` is well formed and the line is `Format(c)`. */
  lemma ParseOkIff(s: string, c: Card)
    ensures Parse(s) == Ok(c) <==> WellFormed(c) && s == Format(c)
  {
    if Parse(s) == Ok(c) {
      var fields := Split(s, Comma);
      assert |fields| == 2;
      assert fields[1..] == [fields[1]];
      JoinSplit(s, Comma);
    }
    if WellFormed(c) && s == Format(c) {
      ParseRoundTrip(c.word, c.translation);
    }
  }

  /** A line is a missing word exactly when it is empty or starts with a comma. */
  lemma ParseMissingWordIff(s: string)
    ensures Parse(s) == Err(MissingWord) <==> s == [] || s[0] == Comma
  {
    SplitFirst(s, Comma);
  }

  /**
   * With `i` the position of the first comma: a line is a missing translation
   * exactly when it has a non-empty first field and the text after that field
   * is nothing, a lone comma, or a comma followed straight by another.
   */
  lemma ParseMissingTranslationIff(s: string)
    ensures var i := IndexOf(s, Comma);
      Parse(s) == Err(MissingTranslation) <==> 0 < i && (|s| <= i + 1 || s[i + 1] == Comma)
  {
    var i := IndexOf(s, Comma);
    SplitFirst(s, Comma);
    if i < |s| {
      SplitFirst(s[i + 1..], Comma);
    }
  }

  /**
   * A line has too many fields exactly when its first two fields are present
   * and non-empty and a second comma follows them; what comes after that
   * comma is never looked at.
   */
  lemma ParseTooManyFieldsIff(s: string)
    ensures var i := IndexOf(s, Comma);
      Parse(s) == Err(TooManyFields) <==>
        0 < i && i + 1 < |s| && s[i + 1] != Comma && Comma in s[i + 1..]
  {
    var i := IndexOf(s, Comma);
    SplitFirst(s, Comma);
    if i < |s| {
      var rest := s[i + 1..];
      SplitFirst(rest, Comma);
    }
  }

  /**
   * The checks run in order, so an earlier error hides a later one: a line
   * with an empty first field is a missing word whatever follows, a present
   * word with an empty second field is a missing translation whatever
   * follows, and any third field after a word and a translation is one too many.
   */
  lemma ParsePrecedence(w: string, t: string, rest: string)
    requires w != [] && t != [] && Comma !in w && Comma !in t
    ensures Parse([Comma] + rest) == Err(MissingWord)
    ensures Parse(w) == Err(MissingTranslation)
    ensures Parse(w + [Comma]) == Err(MissingTranslation)
    ensures Parse(w + [Comma, Comma] + rest) == Err(MissingTranslation)
    ensures Parse(w + [Comma] + t + [Comma] + rest) == Err(TooManyFields)
  {
    ParseMissingWordIff([Comma] + rest);
    IndexOfPrefix(w, [], Comma);
    assert w + [] == w;
    ParseMissingTranslationIff(w);
    IndexOfPrefix(w, [Comma], Comma);
    ParseMissingTranslationIff(w + [Comma]);
    var s := w + [Comma, Comma] + rest;
    assert s == w + ([Comma, Comma] + rest);
    IndexOfPrefix(w, [Comma, Comma] + rest, Comma);
    ParseMissingTranslationIff(s);
    var u := w + [Comma] + t + [Comma] + rest;
    assert u == w + ([Comma] + t + [Comma] + rest);
    IndexOfPrefix(w, [Comma] + t + [Comma] + rest, Comma);
    assert u[|w| + 1..] == t + [Comma] + rest;
    assert u[|w| + 1] == t[0];
    assert (t + [Comma] + rest)[|t|] == Comma;
    ParseTooManyFieldsIff(u);
  }

  /** Example lines of the file format that parse into a card or have too many fields. */
  lemma ParseExamplesWellFormedOrLong()
    ensures Parse("cat,gato") == Ok(Card("cat", "gato"))
    ensures Parse("cat,gato,extra") == Err(TooManyFields)
    ensures Parse("cat,gato,") == Err(TooManyFields)
  {
    assert "cat,gato" == "cat" + [Comma] + "gato";
    ParseRoundTrip("cat", "gato");
    assert "cat,gato,extra" == "cat" + [Comma] + "gato" + [Comma] + "extra";
    ParsePrecedence("cat", "gato", "extra");
    assert "cat,gato," == "cat" + [Comma] + "gato" + [Comma] + "";
    ParsePrecedence("cat", "gato", "");
  }

  /** Example lines of the file format with an empty first field. */
  lemma ParseExamplesMissingWord()
    ensures Parse("") == Err(MissingWord)
    ensures Parse(",gato") == Err(MissingWord)
    ensures Parse(",,x") == Err(MissingWord)
  {
    ParseMissingWordIff("");
    assert ",gato" == [Comma] + "gato";
    ParseMissingWordIff(",gato");
    assert ",,x" == [Comma] + ",x";
    ParseMissingWordIff(",,x");
  }

  /** Example lines of the file format with a word but no translation. */
  lemma ParseExamplesMissingTranslation()
    ensures Parse("cat") == Err(MissingTranslation)
    ensures Parse("cat,") == Err(MissingTranslation)
    ensures Parse("a,,x") == Err(MissingTranslation)
  {
    assert "cat," == "cat" + [Comma];
    ParsePrecedence("cat", "gato", "");
    assert "a,,x" == "a" + [Comma, Comma] + "x";
    ParsePrecedence("a", "b", "x");
  }
}
