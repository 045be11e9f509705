/**
 * The drill: a deck of cards that is shuffled and quizzed round after round
 * (`play_round` and the loop of `run`). The random generator and the typed
 * answers are inputs: the shuffle takes the index that the generator drew
 * at each step, and a round takes the lines that the user typed.
 */
module Drill {
  import opened Text
  import opened Cards
  import opened Loader
  import opened Positions

  /** `answer.trim() == card.translation`: only the typed answer is trimmed. */
  predicate Correct(answer: string, c: Card)
  {
    Trim(answer) == c.translation
  }

  /** Whitespace around the right translation, a typed newline among it, is ignored. */
  lemma CorrectPadded(pre: string, post: string, c: Card)
    requires AllWhitespace(pre) && AllWhitespace(post) && Tight(c.translation)
    ensures Correct(pre + c.translation + post, c)
  {
    TrimPadded(pre, c.translation, post);
  }

  /**
   * A card whose stored translation starts or ends with whitespace (as in
   * the line `cat, gato`) can never be answered correctly.
   */
  lemma CorrectNeedsTight(answer: string, c: Card)
    requires !Tight(c.translation)
    ensures !Correct(answer, c)
  {
    TrimTight(answer);
  }

  /**
   * An answer made only of whitespace, such as the empty line left by
   * `read_line` at the end of input, never matches a card's translation.
   */
  lemma BlankAnswerWrong(answer: string, c: Card)
    requires AllWhitespace(answer) && c.translation != []
    ensures !Correct(answer, c)
  {
    TrimPadded(answer, [], []);
    assert answer + [] + [] == answer;
  }

  // ---------------------------------------------------------------------
  // One drill pass
  // ---------------------------------------------------------------------

  /** For each card of a pass, whether the answer typed at its prompt was right. */
  function Verdicts(cs: seq<Card>, answers: seq<string>): (v: seq<bool>)
    requires |answers| == |cs|
    ensures |v| == |cs|
    ensures forall i :: 0 <= i < |cs| ==> v[i] == Correct(answers[i], cs[i])
  {
    seq(|cs|, i requires 0 <= i < |cs| => Correct(answers[i], cs[i]))
  }

  /** The cards whose flag in `mastered` is false, in their order. */
  function Keep(cs: seq<Card>, mastered: seq<bool>): (r: seq<Card>)
    requires |mastered| == |cs|
    ensures |r| <= |cs|
    decreases |cs|
  {
    if cs == [] then []
    else (if mastered[0] then [] else [cs[0]]) + Keep(cs[1..], mastered[1..])
  }

  /** The cards whose flag in `mastered` is true, in their order. */
  function Drop(cs: seq<Card>, mastered: seq<bool>): seq<Card>
    requires |mastered| == |cs|
    decreases |cs|
  {
    if cs == [] then []
    else (if mastered[0] then [cs[0]] else []) + Drop(cs[1..], mastered[1..])
  }

  /** The cards of a pass that stay in the deck, in their order: the wrongly answered ones. */
  function Retained(cs: seq<Card>, answers: seq<string>): seq<Card>
    requires |answers| == |cs|
  {
    Keep(cs, Verdicts(cs, answers))
  }

  /** The cards of a pass that were answered correctly, in their order. */
  function Mastered(cs: seq<Card>, answers: seq<string>): seq<Card>
    requires |answers| == |cs|
  {
    Drop(cs, Verdicts(cs, answers))
  }

  /** A pass splits the deck: every card is either kept or dropped, none is lost or doubled. */
  lemma {:induction false} KeepPartition(cs: seq<Card>, mastered: seq<bool>)
    requires |mastered| == |cs|
    ensures multiset(Keep(cs, mastered)) + multiset(Drop(cs, mastered)) == multiset(cs)
    decreases |cs|
  {
    if cs != [] {
      KeepPartition(cs[1..], mastered[1..]);
      assert cs == [cs[0]] + cs[1..];
    }
  }

  /** Each position in `idx` holds the matching card of `r` and is not flagged. */
  ghost predicate KeepsAt(cs: seq<Card>, mastered: seq<bool>, r: seq<Card>, idx: seq<nat>)
    requires |mastered| == |cs|
  {
    |idx| == |r| && forall k :: 0 <= k < |idx| ==> idx[k] < |cs| && cs[idx[k]] == r[k] && !mastered[idx[k]]
  }

  /** No unflagged position is left out of `idx`. */
  ghost predicate KeepsAll(cs: seq<Card>, mastered: seq<bool>, idx: seq<nat>)
    requires |mastered| == |cs|
  {
    forall i :: 0 <= i < |cs| && !mastered[i] ==> i in idx
  }

  lemma ShiftKeepsAt(cs: seq<Card>, mastered: seq<bool>, r: seq<Card>, tail: seq<nat>)
    requires |mastered| == |cs| && cs != []
    requires KeepsAt(cs[1..], mastered[1..], r, tail)
    ensures KeepsAt(cs, mastered, r, Shift(tail))
    ensures !mastered[0] ==> KeepsAt(cs, mastered, [cs[0]] + r, [0] + Shift(tail))
  {
    var shifted := Shift(tail);
    forall k | 0 <= k < |shifted|
      ensures shifted[k] < |cs| && cs[shifted[k]] == r[k] && !mastered[shifted[k]]
    {
    }
  }

  lemma ShiftKeepsAll(cs: seq<Card>, mastered: seq<bool>, tail: seq<nat>)
    requires |mastered| == |cs| && cs != []
    requires KeepsAll(cs[1..], mastered[1..], tail)
    ensures mastered[0] ==> KeepsAll(cs, mastered, Shift(tail))
    ensures KeepsAll(cs, mastered, [0] + Shift(tail))
  {
    var shifted := Shift(tail);
    forall i | 0 < i < |cs| && !mastered[i]
      ensures i in shifted
    {
      assert !mastered[1..][i - 1];
      assert i - 1 in tail;
    }
  }

  /**
   * The kept cards are the unflagged cards in their original order:
   * `idx` lists their positions, increasing, and misses none of them.
   */
  lemma {:induction false} KeepPicks(cs: seq<Card>, mastered: seq<bool>) returns (idx: seq<nat>)
    requires |mastered| == |cs|
    ensures KeepsAt(cs, mastered, Keep(cs, mastered), idx) && Increasing(idx) && KeepsAll(cs, mastered, idx)
    decreases |cs|
  {
    if cs == [] {
      idx := [];
    } else {
      var tail := KeepPicks(cs[1..], mastered[1..]);
      var later := Keep(cs[1..], mastered[1..]);
      ShiftKeepsAt(cs, mastered, later, tail);
      ShiftKeepsAll(cs, mastered, tail);
      ConsIncreasing(tail);
      if mastered[0] {
        assert Keep(cs, mastered) == later;
        idx := Shift(tail);
      } else {
        assert Keep(cs, mastered) == [cs[0]] + later;
        idx := [0] + Shift(tail);
      }
    }
  }

  /** A pass in which no card is answered right keeps the whole deck, in order. */
  lemma {:induction false} KeepNone(cs: seq<Card>, mastered: seq<bool>)
    requires |mastered| == |cs|
    requires forall i :: 0 <= i < |cs| ==> !mastered[i]
    ensures Keep(cs, mastered) == cs
    decreases |cs|
  {
    if cs != [] {
      assert forall i :: 0 <= i < |cs| - 1 ==> mastered[1..][i] == mastered[i + 1];
      KeepNone(cs[1..], mastered[1..]);
      assert cs == [cs[0]] + cs[1..];
    }
  }

  /** A pass in which every card is answered right empties the deck. */
  lemma {:induction false} KeepAll(cs: seq<Card>, mastered: seq<bool>)
    requires |mastered| == |cs|
    requires forall i :: 0 <= i < |cs| ==> mastered[i]
    ensures Keep(cs, mastered) == []
    decreases |cs|
  {
    if cs != [] {
      assert forall i :: 0 <= i < |cs| - 1 ==> mastered[1..][i] == mastered[i + 1];
      KeepAll(cs[1..], mastered[1..]);
    }
  }

  /** One card of a pass, seen from the cards already kept in front of it. */
  lemma KeepStep(cs: seq<Card>, mastered: seq<bool>, i: nat, kept: seq<Card>)
    requires |mastered| == |cs| && i < |cs|
    ensures kept + Keep(cs[i..], mastered[i..])
      == (if mastered[i] then kept else kept + [cs[i]]) + Keep(cs[i + 1..], mastered[i + 1..])
  {
    var later := Keep(cs[i + 1..], mastered[i + 1..]);
    if mastered[i] {
      assert [] + later == later;
    } else {
      assert kept + ([cs[i]] + later) == kept + [cs[i]] + later;
    }
  }

  // ---------------------------------------------------------------------
  // The shuffle
  // ---------------------------------------------------------------------

  /** The sequence with the elements at `i` and `j` exchanged. */
  function Swap(s: seq<Card>, i: nat, j: nat): (r: seq<Card>)
    requires i < |s| && j < |s|
    ensures |r| == |s| && multiset(r) == multiset(s)
    ensures r[i] == s[j] && r[j] == s[i]
    ensures forall k :: 0 <= k < |s| && k != i && k != j ==> r[k] == s[k]
  {
    s[i := s[j]][j := s[i]]
  }

  /** Indices a generator may draw for a Fisher-Yates shuffle of `n` elements: the `i`-th is at most `i`. */
  predicate ValidChoices(choices: seq<nat>, n: nat)
  {
    |choices| == n && forall i :: 0 <= i < n ==> choices[i] <= i
  }

  /**
   * The swaps of Fisher-Yates for positions `n - 1` down to 1: position
   * `i` is exchanged with position `c[i]`, which is at most `i`.
   */
  function ShuffleFrom(s: seq<Card>, c: seq<nat>, n: nat): (r: seq<Card>)
    requires n <= |s| && n <= |c|
    requires forall i :: 0 <= i < n ==> c[i] <= i
    ensures |r| == |s| && multiset(r) == multiset(s)
    decreases n
  {
    if n <= 1 then s
    else ShuffleFrom(Swap(s, n - 1, c[n - 1]), c, n - 1)
  }

  /** `SliceRandom::shuffle` of `s` when the generator draws `choices`. */
  function FisherYates(s: seq<Card>, choices: seq<nat>): seq<Card>
    requires ValidChoices(choices, |s|)
  {
    ShuffleFrom(s, choices, |s|)
  }

  /** Only the first `n` choices matter to the swaps below position `n`. */
  lemma {:induction false} ShuffleFromAgree(s: seq<Card>, c: seq<nat>, d: seq<nat>, n: nat)
    requires n <= |s| && n <= |c| && n <= |d|
    requires forall i :: 0 <= i < n ==> c[i] == d[i] && c[i] <= i
    ensures ShuffleFrom(s, c, n) == ShuffleFrom(s, d, n)
    decreases n
  {
    if n > 1 {
      ShuffleFromAgree(Swap(s, n - 1, c[n - 1]), c, d, n - 1);
    }
  }

  lemma SwapPrefix(s: seq<Card>, i: nat, j: nat, n: nat)
    requires i < n && j < n && n <= |s|
    ensures multiset(Swap(s, i, j)[..n]) == multiset(s[..n])
    ensures Swap(s, i, j)[n..] == s[n..]
  {
    assert Swap(s, i, j)[..n] == Swap(s[..n], i, j);
  }

  /** Two sequences that agree from `n - 1` on and hold the same bag below `n` hold the same bag below `n - 1`. */
  lemma PeelLast(a: seq<Card>, b: seq<Card>, n: nat)
    requires 0 < n <= |a| == |b|
    requires multiset(a[..n]) == multiset(b[..n]) && a[n - 1] == b[n - 1] && a[n..] == b[n..]
    ensures multiset(a[..n - 1]) == multiset(b[..n - 1]) && a[n - 1..] == b[n - 1..]
  {
    var x := a[n - 1];
    assert a[..n] == a[..n - 1] + [x];
    assert b[..n] == b[..n - 1] + [x];
    assert multiset(a[..n - 1]) == multiset(a[..n]) - multiset{x};
    assert multiset(b[..n - 1]) == multiset(b[..n]) - multiset{x};
    assert a[n - 1..] == [a[n - 1]] + a[n..];
    assert b[n - 1..] == [b[n - 1]] + b[n..];
  }

  lemma ShuffleFromUnfold(s: seq<Card>, c: seq<nat>, n: nat)
    requires 1 < n <= |s| && ValidChoices(c, n)
    ensures ShuffleFrom(s, c, n) == ShuffleFrom(Swap(s, n - 1, c[n - 1]), c, n - 1)
  {
  }

  /** Below position 1 nothing is left to arrange. */
  lemma ReachBase(s: seq<Card>, t: seq<Card>, n: nat) returns (c: seq<nat>)
    requires n <= 1 && n <= |s| == |t|
    requires multiset(s[..n]) == multiset(t[..n]) && s[n..] == t[n..]
    ensures ValidChoices(c, n) && ShuffleFrom(s, c, n) == t
  {
    c := seq(n, i => 0);
    if n == 1 {
      assert s[0] in multiset(t[..1]);
    }
  }

  lemma ExtendChoices(c: seq<nat>, j: nat, n: nat)
    requires 0 < n && ValidChoices(c, n - 1) && j < n
    ensures ValidChoices(c + [j], n) && (c + [j])[n - 1] == j
    ensures forall k :: 0 <= k < n - 1 ==> (c + [j])[k] == c[k]
  {
  }

  /** The card that belongs at position `n - 1` can be found below `n`, and swapping it there leaves less to arrange. */
  lemma ReachStep(s: seq<Card>, t: seq<Card>, n: nat) returns (j: nat)
    requires 1 < n <= |s| == |t|
    requires multiset(s[..n]) == multiset(t[..n]) && s[n..] == t[n..]
    ensures j < n
    ensures var s' := Swap(s, n - 1, j);
      multiset(s'[..n - 1]) == multiset(t[..n - 1]) && s'[n - 1..] == t[n - 1..]
  {
    assert t[n - 1] in multiset(s[..n]) by {
      assert t[n - 1] in t[..n];
    }
    j :| j < n && s[..n][j] == t[n - 1];
    SwapPrefix(s, n - 1, j, n);
    PeelLast(Swap(s, n - 1, j), t, n);
  }

  lemma {:induction false} ReachFrom(s: seq<Card>, t: seq<Card>, n: nat) returns (c: seq<nat>)
    requires n <= |s| == |t|
    requires multiset(s[..n]) == multiset(t[..n]) && s[n..] == t[n..]
    ensures ValidChoices(c, n) && ShuffleFrom(s, c, n) == t
    decreases n
  {
    if n <= 1 {
      c := ReachBase(s, t, n);
    } else {
      var j := ReachStep(s, t, n);
      var s' := Swap(s, n - 1, j);
      var c' := ReachFrom(s', t, n - 1);
      c := c' + [j];
      ExtendChoices(c', j, n);
      ShuffleFromAgree(s', c, c', n - 1);
      ShuffleFromUnfold(s, c, n);
    }
  }

  /**
   * The shuffle can produce every arrangement of the deck: for any `t`
   * with the same cards as `s` there are choices that shuffle `s` into `t`.
   */
  lemma ShuffleReachesAll(s: seq<Card>, t: seq<Card>) returns (choices: seq<nat>)
    requires multiset(s) == multiset(t)
    ensures ValidChoices(choices, |s|) && FisherYates(s, choices) == t
  {
    assert |s| == |multiset(s)| == |multiset(t)| == |t|;
    assert s[..|s|] == s && t[..|t|] == t;
    choices := ReachFrom(s, t, |s|);
  }

  // ---------------------------------------------------------------------
  // The deck
  // ---------------------------------------------------------------------

  /** The cards not mastered yet, in their current order. */
  class Deck {
    var cards: seq<Card>

    constructor (cards: seq<Card>)
      ensures this.cards == cards
    {
      this.cards := cards;
    }

    /** `cards.shuffle(&mut rng)`, with `choices[i]` the index drawn for position `i`. */
    method Shuffle(choices: seq<nat>)
      requires ValidChoices(choices, |cards|)
      modifies this
      ensures cards == FisherYates(old(cards), choices)
      ensures multiset(cards) == multiset(old(cards))
    {
      var i: nat := |cards|;
      while i > 1
        invariant i <= |cards| == |choices|
        invariant ShuffleFrom(cards, choices, i) == FisherYates(old(cards), choices)
      {
        cards := Swap(cards, i - 1, choices[i - 1]);
        i := i - 1;
      }
    }

    /**
     * `play_round`: prompt for every card in deck order with `answers[i]`
     * the line typed for the `i`-th prompt, and keep the wrongly answered
     * cards in their order.
     */
    method PlayRound(answers: seq<string>)
      requires |answers| == |cards|
      modifies this
      ensures cards == Retained(old(cards), answers)
      ensures multiset(cards) + multiset(Mastered(old(cards), answers)) == multiset(old(cards))
    {
      var drained := cards;
      ghost var verdicts := Verdicts(drained, answers);
      var kept: seq<Card> := [];
      var i := 0;
      while i < |drained|
        invariant 0 <= i <= |drained|
        invariant kept + Keep(drained[i..], verdicts[i..]) == Keep(drained, verdicts)
      {
        KeepStep(drained, verdicts, i, kept);
        if Trim(answers[i]) != drained[i].translation {
          kept := kept + [drained[i]];
        }
        i := i + 1;
      }
      assert kept + [] == kept;
      cards := kept;
      KeepPartition(drained, verdicts);
    }
  }

  // ---------------------------------------------------------------------
  // The session
  // ---------------------------------------------------------------------

  /** What the environment supplies for one round: the drawn indices and the typed answers. */
  datatype Round = Round(choices: seq<nat>, answers: seq<string>)

  /** The outcome of a session: the cards left and the number of rounds played. */
  datatype Outcome = Outcome(remaining: seq<Card>, rounds: nat)

  /** One round's inputs suit a deck of the given cards. */
  predicate Fits(cs: seq<Card>, r: Round)
  {
    ValidChoices(r.choices, |cs|) && |r.answers| == |cs|
  }

  /** A round: shuffle, then keep the cards answered wrongly in the shuffled order. */
  function AfterRound(cs: seq<Card>, r: Round): seq<Card>
    requires Fits(cs, r)
  {
    Retained(FisherYates(cs, r.choices), r.answers)
  }

  /** Every round the session reaches gets inputs that suit the deck it is played on. */
  predicate ScriptFits(cs: seq<Card>, script: seq<Round>)
    decreases |script|
  {
    cs == [] || script == [] || (Fits(cs, script[0]) && ScriptFits(AfterRound(cs, script[0]), script[1..]))
  }

  /**
   * The loop of `run` until the deck is empty or the supplied rounds run
   * out: the session stops early only on an empty deck, and it plays no
   * round exactly when there is nothing to play or nothing to play with.
   */
  function Play(cs: seq<Card>, script: seq<Round>): (o: Outcome)
    requires ScriptFits(cs, script)
    ensures o.rounds <= |script|
    ensures o.remaining == [] || o.rounds == |script|
    ensures o.rounds == 0 <==> cs == [] || script == []
    ensures o.rounds == 0 ==> o.remaining == cs
    decreases |script|
  {
    if cs == [] || script == [] then Outcome(cs, 0)
    else
      var o := Play(AfterRound(cs, script[0]), script[1..]);
      Outcome(o.remaining, o.rounds + 1)
  }

  /** A round only removes cards: it keeps some of what it was given and drops the others. */
  lemma RoundShrinks(cs: seq<Card>, r: Round)
    requires Fits(cs, r)
    ensures var shuffled := FisherYates(cs, r.choices);
      multiset(AfterRound(cs, r)) + multiset(Mastered(shuffled, r.answers)) == multiset(cs)
  {
    KeepPartition(FisherYates(cs, r.choices), Verdicts(FisherYates(cs, r.choices), r.answers));
  }

  /** The cards left after any number of rounds are some of the cards the session began with. */
  lemma {:induction false} PlayShrinks(cs: seq<Card>, script: seq<Round>)
    requires ScriptFits(cs, script)
    ensures multiset(Play(cs, script).remaining) <= multiset(cs)
    decreases |script|
  {
    if cs != [] && script != [] {
      RoundShrinks(cs, script[0]);
      PlayShrinks(AfterRound(cs, script[0]), script[1..]);
    }
  }

  /** Every answer of every round is blank, as after the end of input. */
  predicate BlankAnswers(script: seq<Round>)
  {
    forall k, i :: 0 <= k < |script| && 0 <= i < |script[k].answers| ==> AllWhitespace(script[k].answers[i])
  }

  lemma BlankAnswersTail(script: seq<Round>)
    requires script != [] && BlankAnswers(script)
    ensures BlankAnswers(script[1..])
    ensures forall i :: 0 <= i < |script[0].answers| ==> AllWhitespace(script[0].answers[i])
  {
    assert forall k :: 0 <= k < |script| - 1 ==> script[1..][k] == script[k + 1];
  }

  /** Every card has a non-empty translation, as every card the loader makes does. */
  predicate Translated(cs: seq<Card>)
  {
    forall k :: 0 <= k < |cs| ==> cs[k].translation != []
  }

  /** A round of blank answers masters nothing: the deck stays as the shuffle left it. */
  lemma RoundBlank(cs: seq<Card>, r: Round)
    requires Fits(cs, r) && Translated(cs)
    requires forall i :: 0 <= i < |r.answers| ==> AllWhitespace(r.answers[i])
    ensures AfterRound(cs, r) == FisherYates(cs, r.choices)
    ensures Translated(AfterRound(cs, r))
  {
    var shuffled := FisherYates(cs, r.choices);
    var verdicts := Verdicts(shuffled, r.answers);
    forall i | 0 <= i < |shuffled|
      ensures !verdicts[i]
    {
      assert shuffled[i] in multiset(cs);
      BlankAnswerWrong(r.answers[i], shuffled[i]);
    }
    KeepNone(shuffled, verdicts);
    forall k | 0 <= k < |shuffled|
      ensures shuffled[k].translation != []
    {
      assert shuffled[k] in multiset(cs);
    }
  }

  /**
   * With only blank answers no card is ever mastered: every supplied round
   * is played and the deck keeps all its cards, so `run` would never stop.
   */
  lemma {:induction false} PlayBlankAnswers(cs: seq<Card>, script: seq<Round>)
    requires ScriptFits(cs, script) && BlankAnswers(script) && Translated(cs)
    ensures multiset(Play(cs, script).remaining) == multiset(cs)
    ensures cs != [] ==> Play(cs, script).rounds == |script|
    decreases |script|
  {
    if cs != [] && script != [] {
      var next := AfterRound(cs, script[0]);
      RoundBlank(cs, script[0]);
      BlankAnswersTail(script);
      PlayBlankAnswers(next, script[1..]);
      var o := Play(next, script[1..]);
      assert Play(cs, script) == Outcome(o.remaining, o.rounds + 1);
    }
  }

  /** A first round answered right throughout ends the session after that round. */
  lemma PlayAllRight(cs: seq<Card>, script: seq<Round>)
    requires cs != [] && script != [] && ScriptFits(cs, script)
    requires var shuffled := FisherYates(cs, script[0].choices);
      forall i :: 0 <= i < |shuffled| ==> Correct(script[0].answers[i], shuffled[i])
    ensures Play(cs, script) == Outcome([], 1)
  {
    var shuffled := FisherYates(cs, script[0].choices);
    KeepAll(shuffled, Verdicts(shuffled, script[0].answers));
  }

  /**
   * `run` after the deck file has been read: load the cards, then play
   * rounds until the deck is empty, `round_number` counting from 1. The
   * rounds' inputs come from `script`; the session ends early only when
   * `script` runs out. Returns the warnings of loading, the final
   * `round_number` and the cards left.
   */
  method Run(text: string, script: seq<Round>) returns (warnings: seq<Warning>, roundNumber: nat, remaining: seq<Card>)
    requires ScriptFits(LoadCards(text).cards, script)
    ensures warnings == LoadCards(text).warnings
    ensures 1 <= roundNumber <= |script| + 1
    ensures Play(LoadCards(text).cards, script) == Outcome(remaining, roundNumber - 1)
    ensures remaining == [] || roundNumber == |script| + 1
    ensures multiset(remaining) <= multiset(LoadCards(text).cards)
  {
    var loaded := LoadCards(text);
    warnings := loaded.warnings;
    var deck := new Deck(loaded.cards);
    ghost var final := Play(loaded.cards, script);
    roundNumber := 1;
    while deck.cards != [] && roundNumber <= |script|
      invariant 1 <= roundNumber <= |script| + 1
      invariant ScriptFits(deck.cards, script[roundNumber - 1..])
      invariant Play(deck.cards, script[roundNumber - 1..]).remaining == final.remaining
      invariant Play(deck.cards, script[roundNumber - 1..]).rounds + roundNumber - 1 == final.rounds
      invariant multiset(deck.cards) <= multiset(loaded.cards)
      decreases |script| + 1 - roundNumber
    {
      var r := script[roundNumber - 1];
      assert script[roundNumber - 1..][1..] == script[roundNumber..];
      deck.Shuffle(r.choices);
      deck.PlayRound(r.answers);
      roundNumber := roundNumber + 1;
    }
    remaining := deck.cards;
  }
}
