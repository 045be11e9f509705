/**
 * The deck loader (`load_cards`) over the text of the deck file: every line
 * is parsed, the cards are kept in file order and each line that is not a
 * card gives a warning with its 1-based line number.
 */
module Loader {
  import opened Text
  import opened Cards
  import opened Positions

  /** A skipped line: its 1-based number in the file and why it is not a card. */
  datatype Warning = Warning(line: nat, error: CardError)

  /** What loading yields: the deck, and the warnings that were reported. */
  datatype Loaded = Loaded(cards: seq<Card>, warnings: seq<Warning>)

  /** The parse result of every line, in order. */
  function ParseAll(lines: seq<string>): (rs: seq<ParseResult>)
    ensures |rs| == |lines|
    ensures forall i :: 0 <= i < |lines| ==> rs[i] == Parse(lines[i])
  {
    seq(|lines|, i requires 0 <= i < |lines| => Parse(lines[i]))
  }

  /**
   * The `filter_map` of `load_cards`: keep the cards and turn each error
   * into a warning; `rs[0]` belongs to line number `first` of the file.
   */
  function Collect(rs: seq<ParseResult>, first: nat): (r: Loaded)
    ensures |r.cards| + |r.warnings| == |rs|
    decreases |rs|
  {
    if rs == [] then Loaded([], [])
    else
      var rest := Collect(rs[1..], first + 1);
      match rs[0]
      case Ok(c) => Loaded([c] + rest.cards, rest.warnings)
      case Err(e) => Loaded(rest.cards, [Warning(first, e)] + rest.warnings)
  }

  /** `load_cards` applied to the contents of the file. */
  function LoadCards(text: string): Loaded
  {
    Collect(ParseAll(Lines(text)), 1)
  }

  /** One step of `Collect`: the head's card or warning goes in front of the tail's. */
  lemma CollectStep(rs: seq<ParseResult>, first: nat)
    requires rs != []
    ensures var r := Collect(rs, first);
            var rest := Collect(rs[1..], first + 1);
      && (rs[0].Ok? ==> r.cards == [rs[0].card] + rest.cards && r.warnings == rest.warnings)
      && (rs[0].Err? ==> r.cards == rest.cards && r.warnings == [Warning(first, rs[0].error)] + rest.warnings)
  {
  }

  lemma {:induction false} CollectWarningsSound(rs: seq<ParseResult>, first: nat)
    ensures var ws := Collect(rs, first).warnings;
      forall k :: 0 <= k < |ws| ==>
        first <= ws[k].line < first + |rs| && rs[ws[k].line - first] == Err(ws[k].error)
    decreases |rs|
  {
    if rs != [] {
      CollectStep(rs, first);
      CollectWarningsSound(rs[1..], first + 1);
    }
  }

  lemma {:induction false} CollectWarningsComplete(rs: seq<ParseResult>, first: nat)
    ensures var ws := Collect(rs, first).warnings;
      forall i :: 0 <= i < |rs| && rs[i].Err? ==> Warning(first + i, rs[i].error) in ws
    decreases |rs|
  {
    if rs != [] {
      CollectStep(rs, first);
      CollectWarningsComplete(rs[1..], first + 1);
      forall i | 0 < i < |rs|
        ensures rs[i] == rs[1..][i - 1]
      {
      }
    }
  }

  lemma {:induction false} CollectWarningsOrdered(rs: seq<ParseResult>, first: nat)
    ensures var ws := Collect(rs, first).warnings;
      && (forall k :: 0 <= k < |ws| ==> first <= ws[k].line)
      && (forall j, k :: 0 <= j < k < |ws| ==> ws[j].line < ws[k].line)
    decreases |rs|
  {
    if rs != [] {
      CollectStep(rs, first);
      CollectWarningsOrdered(rs[1..], first + 1);
    }
  }

  /** Each position in `idx` holds the matching card of `cs`. */
  ghost predicate PicksSound(rs: seq<ParseResult>, cs: seq<Card>, idx: seq<nat>)
  {
    |idx| == |cs| && forall k :: 0 <= k < |idx| ==> idx[k] < |rs| && rs[idx[k]] == Ok(cs[k])
  }

  /** No position that holds a card is left out of `idx`. */
  ghost predicate PicksAll(rs: seq<ParseResult>, idx: seq<nat>)
  {
    forall i :: 0 <= i < |rs| && rs[i].Ok? ==> i in idx
  }

  /** `idx` picks, in increasing order, exactly the positions of `rs` that hold the cards `cs`. */
  ghost predicate PicksCards(rs: seq<ParseResult>, cs: seq<Card>, idx: seq<nat>)
  {
    PicksSound(rs, cs, idx) && Increasing(idx) && PicksAll(rs, idx)
  }

  lemma ConsSound(rs: seq<ParseResult>, cs: seq<Card>, tail: seq<nat>)
    requires rs != [] && PicksSound(rs[1..], cs, tail)
    ensures PicksSound(rs, cs, Shift(tail))
    ensures rs[0].Ok? ==> PicksSound(rs, [rs[0].card] + cs, [0] + Shift(tail))
  {
    var shifted := Shift(tail);
    forall k | 0 <= k < |shifted|
      ensures shifted[k] < |rs| && rs[shifted[k]] == Ok(cs[k])
    {
      assert rs[shifted[k]] == rs[1..][tail[k]];
    }
    if rs[0].Ok? {
      var idx, cards := [0] + shifted, [rs[0].card] + cs;
      assert forall k :: 0 < k < |idx| ==> idx[k] == shifted[k - 1] && cards[k] == cs[k - 1];
    }
  }

  lemma ConsAll(rs: seq<ParseResult>, tail: seq<nat>)
    requires rs != [] && PicksAll(rs[1..], tail)
    ensures rs[0].Err? ==> PicksAll(rs, Shift(tail))
    ensures PicksAll(rs, [0] + Shift(tail))
  {
    var shifted := Shift(tail);
    forall i | 0 < i < |rs| && rs[i].Ok?
      ensures i in shifted
    {
      assert rs[1..][i - 1].Ok?;
      assert i - 1 in tail;
    }
  }

  lemma {:induction false} CollectCards(rs: seq<ParseResult>, first: nat) returns (idx: seq<nat>)
    ensures PicksCards(rs, Collect(rs, first).cards, idx)
    decreases |rs|
  {
    if rs == [] {
      idx := [];
    } else {
      CollectStep(rs, first);
      var tail := CollectCards(rs[1..], first + 1);
      ConsSound(rs, Collect(rs[1..], first + 1).cards, tail);
      ConsIncreasing(tail);
      ConsAll(rs, tail);
      idx := if rs[0].Ok? then [0] + Shift(tail) else Shift(tail);
    }
  }

  /** Every warning names a line, by its 1-based number, that does not parse, and its error. */
  lemma LoadCardsWarningsSound(text: string)
    ensures var lines := Lines(text);
            var ws := LoadCards(text).warnings;
      forall k :: 0 <= k < |ws| ==>
        1 <= ws[k].line <= |lines| && Parse(lines[ws[k].line - 1]) == Err(ws[k].error)
  {
    var rs := ParseAll(Lines(text));
    assert LoadCards(text) == Collect(rs, 1);
    CollectWarningsSound(rs, 1);
  }

  /** Every line that does not parse gets a warning with its 1-based number and its error. */
  lemma LoadCardsWarningsComplete(text: string)
    ensures var lines := Lines(text);
            var ws := LoadCards(text).warnings;
      forall i :: 0 <= i < |lines| && Parse(lines[i]).Err? ==> Warning(i + 1, Parse(lines[i]).error) in ws
  {
    var rs := ParseAll(Lines(text));
    CollectWarningsComplete(rs, 1);
  }

  /** The warnings come in increasing line order, one per line at most. */
  lemma LoadCardsWarningsOrdered(text: string)
    ensures var ws := LoadCards(text).warnings;
      forall j, k :: 0 <= j < k < |ws| ==> ws[j].line < ws[k].line
  {
    var rs := ParseAll(Lines(text));
    assert LoadCards(text) == Collect(rs, 1);
    CollectWarningsOrdered(rs, 1);
  }

  lemma {:induction false} CollectWellFormed(rs: seq<ParseResult>, first: nat)
    requires forall i :: 0 <= i < |rs| && rs[i].Ok? ==> WellFormed(rs[i].card)
    ensures forall k :: 0 <= k < |Collect(rs, first).cards| ==> WellFormed(Collect(rs, first).cards[k])
    decreases |rs|
  {
    if rs != [] {
      CollectStep(rs, first);
      assert forall i :: 0 < i < |rs| ==> rs[i] == rs[1..][i - 1];
      CollectWellFormed(rs[1..], first + 1);
    }
  }

  /**
   * The deck is the cards parsed from the lines that are cards, in file
   * order: `idx` lists those lines, increasing, and misses none of them.
   * Every card is well formed, and cards and warnings together account
   * for every line.
   */
  lemma LoadCardsDeck(text: string) returns (idx: seq<nat>)
    ensures var lines := Lines(text);
            var r := LoadCards(text);
      && |r.cards| + |r.warnings| == |lines|
      && (forall k :: 0 <= k < |r.cards| ==> WellFormed(r.cards[k]))
      && |idx| == |r.cards|
      && (forall k :: 0 <= k < |idx| ==> idx[k] < |lines| && Parse(lines[idx[k]]) == Ok(r.cards[k]))
      && (forall j, k :: 0 <= j < k < |idx| ==> idx[j] < idx[k])
      && (forall i :: 0 <= i < |lines| && Parse(lines[i]).Ok? ==> i in idx)
  {
    var rs := ParseAll(Lines(text));
    CollectWellFormed(rs, 1);
    idx := CollectCards(rs, 1);
  }

  /** A line in which every field is kept: no comma inside, no newline, no carriage return at its end. */
  predicate Storable(c: Card)
  {
    WellFormed(c) && '\n' !in c.word && '\n' !in c.translation && c.translation[|c.translation| - 1] != '\r'
  }

  /** A deck file with one `word,translation` line per card, each ended by a newline. */
  function FormatDeck(cs: seq<Card>): string
  {
    Terminated(seq(|cs|, i requires 0 <= i < |cs| => Format(cs[i])), "\n")
  }

  lemma {:induction false} CollectAllOk(rs: seq<ParseResult>, cs: seq<Card>, first: nat)
    requires |rs| == |cs| && forall i :: 0 <= i < |rs| ==> rs[i] == Ok(cs[i])
    ensures Collect(rs, first) == Loaded(cs, [])
    decreases |rs|
  {
    if rs != [] {
      CollectStep(rs, first);
      assert forall i :: 0 <= i < |rs| - 1 ==> rs[1..][i] == rs[i + 1] && cs[1..][i] == cs[i + 1];
      CollectAllOk(rs[1..], cs[1..], first + 1);
      assert cs == [cs[0]] + cs[1..];
    }
  }

  /** Writing a deck in the file format and loading it back gives the same deck and no warnings. */
  lemma LoadFormatted(cs: seq<Card>)
    requires forall k :: 0 <= k < |cs| ==> Storable(cs[k])
    ensures LoadCards(FormatDeck(cs)) == Loaded(cs, [])
  {
    var ls := seq(|cs|, i requires 0 <= i < |cs| => Format(cs[i]));
    forall k | 0 <= k < |ls|
      ensures '\n' !in ls[k] && ls[k][|ls[k]| - 1] != '\r'
    {
      var c := cs[k];
      assert ls[k] == c.word + [Comma] + c.translation;
      assert ls[k][|ls[k]| - 1] == c.translation[|c.translation| - 1];
    }
    LinesOfTerminated(ls);
    var rs := ParseAll(ls);
    forall i | 0 <= i < |rs|
      ensures rs[i] == Ok(cs[i])
    {
      ParseRoundTrip(cs[i].word, cs[i].translation);
    }
    CollectAllOk(rs, cs, 1);
  }
}
