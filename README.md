# vocabulator, modelled in Dafny

vocabulator is a command-line vocabulary drill. It reads a deck file in
which each line is `word,translation`. Lines that are not cards are
skipped with a warning that gives the 1-based line number and the reason.
Then it plays rounds until the deck is empty. Each round shuffles the
deck and prompts for every card's translation. A card leaves the deck
when the trimmed answer equals its translation. The wrongly answered
cards stay, in their order, for the next round.

The model has five modules, one file each:

- `Text` (`text.dfy`) covers the three pieces of Rust's `str` that the
  program relies on:
  - `split(',')`, defined by recursion, with `Join` as its inverse;
  - `lines()`, with a writer (`Terminated`) that it inverts;
  - `trim()`, over the full Unicode `White_Space` set.
- `Cards` (`cards.dfy`) has the `Card` record, `Card::from_str` as
  `Parse`, and the three error kinds with their `Display` texts.
- `Positions` (`positions.dfy`) has lists of positions, used to say which
  elements of one sequence were picked out into another, in order.
- `Loader` (`loader.dfy`) has `load_cards` as a function of the file's
  text. It returns the deck and the warnings it would print.
- `Drill` (`drill.dfy`) has the rest:
  - the `Deck` class, whose `cards` field is updated in place;
  - `Shuffle`, the Fisher–Yates loop of `SliceRandom::shuffle` with the
    generator's draws passed in;
  - `PlayRound`, the `drain`/`filter`/`collect` of `play_round` as a
    loop, with the typed answers passed in;
  - `Run`, the loop of `run`, with each round's draws and answers taken
    from a script.

What is proved about each operation:
- `Join` inverts `Split` in both directions, `Lines` reads back the text
  that `Terminated` writes, and `Trim` removes exactly the whitespace
  around a text.
- Parsing is an exact characterization of each outcome, plus a round trip
  with `Format`.
- Loading keeps, in file order, the card of every line that parses, gives a
  warning with the line number for every line that does not, and loads the
  text written by `FormatDeck` back to the same deck.
- A round splits the deck into the cards kept and the cards mastered; the
  kept cards are the wrongly answered ones, in their order.
- The shuffle is a permutation, and every permutation is reachable.
- The session is the function `Play`. About it the model proves that the
  deck only shrinks, that play can stop early only on an empty deck, and
  what happens when every answer is blank or every answer is right.

## Model

| member | source | states |
|---|---|---|
| Text.Split | src/lib.rs:63 | `split(',')` always yields at least one field, and no field contains the separator |
| Text.JoinSplit | src/lib.rs:63 | joining the fields of `s` with the separator gives back `s` exactly |
| Text.SplitJoin | src/lib.rs:63 | splitting a non-empty list of separator-free fields joined by the separator gives back those fields |
| Text.SplitUnique | src/lib.rs:63 | a list of separator-free fields that joins to `s` is the split of `s` |
| Text.Lines | src/lib.rs:47 | `lines()` yields no lines exactly for the empty text, and no line contains `'\n'` |
| Text.LinesOfTerminated | src/lib.rs:47 | lines written with `"\n"` endings read back unchanged, unless a line contains `'\n'` or ends in `'\r'` |
| Text.LinesOfCrlfTerminated | src/lib.rs:47 | lines written with `"\r\n"` endings read back unchanged |
| Text.LinesTrailingNewline | src/lib.rs:47 | a final newline does not add an empty last line |
| Text.TrimStart | src/lib.rs:118 | the result is a suffix of the input, and everything removed before it is whitespace |
| Text.TrimEnd | src/lib.rs:118 | the result is a prefix of the input, and everything removed after it is whitespace |
| Text.Trim | src/lib.rs:118 | no contract of its own; characterised by `TrimPadded` and `TrimTight` |
| Text.TrimPadded | src/lib.rs:118 | `trim` removes exactly the whitespace around a text that does not itself start or end with whitespace |
| Text.TrimTight | src/lib.rs:118 | a trimmed text has no whitespace at either end, and trimming again changes nothing |
| Cards.Parse | src/lib.rs:60-84 | every card the parser returns has a non-empty word and translation, and neither contains a comma |
| Cards.ParseRoundTrip | src/lib.rs:60-84 | `word,translation` with two non-empty comma-free fields parses to that card |
| Cards.ParseOkIff | src/lib.rs:60-84 | a line parses to card `c` if and only if `c` is well formed and the line is `c.word + "," + c.translation` |
| Cards.ParseMissingWordIff | src/lib.rs:65-68 | `MissingWord` is returned if and only if the line is empty or starts with a comma |
| Cards.ParseMissingTranslationIff | src/lib.rs:70-73 | `MissingTranslation` is returned if and only if the word is present and the second field is absent or empty |
| Cards.ParseTooManyFieldsIff | src/lib.rs:75-77 | `TooManyFields` is returned if and only if word and translation are present and a further comma follows, whatever comes after that comma |
| Cards.ParsePrecedence | src/lib.rs:63-77 | the checks run in order: an earlier error hides a later one |
| Cards.ParseExamplesWellFormedOrLong | src/lib.rs:60-84 | `cat,gato` is a card; `cat,gato,extra` and `cat,gato,` have too many fields |
| Cards.ParseExamplesMissingWord | src/lib.rs:65-68 | the empty line, `,gato` and `,,x` are missing a word |
| Cards.ParseExamplesMissingTranslation | src/lib.rs:70-73 | `cat`, `cat,` and `a,,x` are missing a translation |
| Cards.Message | src/lib.rs:93-102 | no contract of its own; characterised by `MessageTable` |
| Cards.MessageTable | src/lib.rs:93-102 | the three messages are `missing word`, `missing translation` and `too many fields`, and no two kinds share one |
| Loader.LoadCards | src/lib.rs:43-58 | no contract of its own; characterised by `LoadCardsDeck`, the three `LoadCardsWarnings` lemmas and `LoadFormatted` |
| Loader.Collect | src/lib.rs:48-56 | every line yields either a card or a warning, so the two counts add up to the number of lines |
| Loader.LoadCardsWarningsSound | src/lib.rs:49-53 | a warning names a real line by its 1-based number, and that line fails to parse with the warning's error |
| Loader.LoadCardsWarningsComplete | src/lib.rs:49-53 | every line that fails to parse gets a warning with its 1-based number and its error |
| Loader.LoadCardsWarningsOrdered | src/lib.rs:47-53 | warnings come in increasing line order |
| Loader.LoadCardsDeck | src/lib.rs:43-58 | the deck holds the cards of the lines that parse, in file order, leaving none out; cards plus warnings equal the number of lines; every card is well formed |
| Loader.LoadFormatted | src/lib.rs:43-58 | a deck written one `word,translation` line per card loads back as the same deck with no warnings |
| Drill.Correct | src/lib.rs:118 | no contract of its own; characterised by `CorrectPadded`, `CorrectNeedsTight` and `BlankAnswerWrong` |
| Drill.CorrectPadded | src/lib.rs:118 | an answer typed with whitespace or the newline around the translation counts as right |
| Drill.CorrectNeedsTight | src/lib.rs:118 | a card whose stored translation starts or ends with whitespace can never be answered right, since only the answer is trimmed |
| Drill.BlankAnswerWrong | src/lib.rs:114-118 | a blank answer, such as the empty line left by `read_line` at end of input, is never right |
| Drill.Keep | src/lib.rs:107-120 | keeps at most the cards it is given; characterised by `KeepPicks` and `KeepPartition` |
| Drill.Retained | src/lib.rs:107-120 | no contract of its own; the cards of a round that were answered wrong, characterised through `Keep` by `KeepPicks`, `KeepNone` and `KeepAll` |
| Drill.KeepPartition | src/lib.rs:107-120 | each card of a round is either kept or mastered: together the two make up the deck exactly |
| Drill.KeepPicks | src/lib.rs:107-120 | the kept cards are exactly the wrongly answered ones, in their original order |
| Drill.KeepNone | src/lib.rs:107-120 | a round with no right answer keeps the whole deck, in order |
| Drill.KeepAll | src/lib.rs:107-120 | a round with only right answers empties the deck |
| Drill.FisherYates | src/lib.rs:31 | no contract of its own; the swaps of `ShuffleFrom` over the whole deck, characterised by `ShuffleFrom` and `ShuffleReachesAll` |
| Drill.ShuffleFrom | src/lib.rs:31 | the swaps of the shuffle keep the length and the multiset of cards |
| Drill.ShuffleReachesAll | src/lib.rs:31 | every rearrangement of the deck is the result of some sequence of generator draws |
| Drill.Deck.Shuffle | src/lib.rs:31 | the loop leaves the deck as the Fisher–Yates result for the given draws, a permutation of the old deck |
| Drill.Deck.PlayRound | src/lib.rs:106-121 | the new deck is the old one minus the correctly answered cards, in order, and no card is lost or gained |
| Drill.Play | src/lib.rs:25-34 | the session plays at most the supplied rounds, stops early only on an empty deck, and plays none exactly when the deck or the script is empty |
| Drill.AfterRound | src/lib.rs:31-32 | no contract of its own; one round as a function of the deck, characterised by `RoundShrinks` |
| Drill.RoundShrinks | src/lib.rs:31-32 | one round (shuffle, then prompts) splits its deck into the cards kept and the cards mastered |
| Drill.PlayShrinks | src/lib.rs:26-34 | after any number of rounds the deck is a sub-multiset of the loaded deck |
| Drill.PlayBlankAnswers | src/lib.rs:26-34 | when every answer is blank, every supplied round is played and no card ever leaves; so the loop of `run` never ends on its own, until its `i32` round counter overflows (see `Drill.Run` under Left out) |
| Drill.PlayAllRight | src/lib.rs:26-34 | a first round answered right throughout ends the session after that round |
| Drill.Run | src/lib.rs:21-41 | `run` reports the loader's warnings, and its deck and `round_number` after the loop agree with `Play`: `round_number` is one more than the rounds played, the loop ends only on an empty deck or when the script is exhausted, and the deck only shrinks |

## Left out

- Reading the deck file (`fs::read_to_string`) and its I/O error: `LoadCards` takes the file's text.
- Byte-level detail of the text: it is modelled as a sequence of Unicode scalar values, with no UTF-8 encoding.
- The path shown in a warning, and the printing of warnings, banners and prompts: the model keeps each warning's line number and error kind, and `Message` gives the text.
- Reading from standard input: the answers of a round are a parameter. Each answer is the typed line, as `read_line` leaves it. The panics of `expect` on a failed flush or read are not modelled.
- `rand::thread_rng` and how it draws: the index drawn for each position of the shuffle is a parameter. `ValidChoices` bounds each draw as the generator does.
- Drill.Deck.Shuffle: states which draws give which order. The generator's uniform distribution over orders is not modelled; `ShuffleReachesAll` shows only that every order is possible.
- Drill.Run: `round_number` is an `i32` in the source, the default type of its untyped literal (src/lib.rs:25, 33). After 2^31 − 1 rounds, which blank answers at end of input reach, `+= 1` panics in a debug build and wraps to a negative number in a release build. The model counts rounds with an unbounded `nat`.
- The unbounded loop of `run` and its termination: `Run` plays the rounds of a finite script. It stops when the deck is empty or the script runs out, and it requires each round's inputs to fit the deck at that point.
- `lines()` follows current Rust: a `'\r'` is dropped only right before a `'\n'`, so a lone `'\r'` at the very end of the text stays in the last line.
- `trim()` uses the Unicode `White_Space` property, listed in `IsWhitespace`. No other Unicode behaviour is modelled.
- The command-line parsing in `src/main.rs` and the `cli` module is not part of this model.
- The derived `Debug`, `Clone` and `Copy` implementations and the `Error` marker implementation are not part of this model.
