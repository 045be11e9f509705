/**
 * The three pieces of Rust's string library that the card parser, the deck
 * loader and the drill loop rely on: `str::split` on one character,
 * `str::lines`, and `str::trim` with Rust's `char::is_whitespace`.
 * `Join` inverts `Split` in both directions, `Lines` reads back what
 * `Terminated` writes, and `Trim` removes exactly the whitespace around a
 * text, leaving one that neither starts nor ends with whitespace.
 */
module Text {

  /** Index of the first occurrence of `c` in `s`, or `|s|` when there is none. */
  function IndexOf(s: string, c: char): (i: nat)
    ensures i <= |s|
    ensures i < |s| ==> s[i] == c
    ensures forall k :: 0 <= k < i ==> s[k] != c
  {
    if s == [] then 0 else if s[0] == c then 0 else 1 + IndexOf(s[1..], c)
  }

  /** The fields joined back together, separated by `sep` (the inverse of `Split`). */
  function Join(fields: seq<string>, sep: char): string
  {
    if |fields| == 0 then []
    else if |fields| == 1 then fields[0]
    else fields[0] + [sep] + Join(fields[1..], sep)
  }

  /**
   * `s.split(sep)`: the maximal separator-free pieces between the separators,
   * empty pieces included. There is always at least one field, so the empty
   * string splits into `[""]`.
   */
  function Split(s: string, sep: char): (fields: seq<string>)
    ensures |fields| >= 1
    ensures forall k :: 0 <= k < |fields| ==> sep !in fields[k]
    decreases |s|
  {
    var i := IndexOf(s, sep);
    if i == |s| then [s] else [s[..i]] + Split(s[i + 1..], sep)
  }

  /** Joining the fields with the separator gives the text back. */
  lemma {:induction false} JoinSplit(s: string, sep: char)
    ensures Join(Split(s, sep), sep) == s
    decreases |s|
  {
    var i := IndexOf(s, sep);
    if i < |s| {
      var rest := Split(s[i + 1..], sep);
      var fields := [s[..i]] + rest;
      assert Join(fields, sep) == s[..i] + [sep] + Join(rest, sep);
      JoinSplit(s[i + 1..], sep);
      assert s == s[..i] + [sep] + s[i + 1..];
    }
  }

  lemma {:induction false} IndexOfPrefix(a: string, b: string, c: char)
    requires c !in a
    ensures IndexOf(a + b, c) == |a| + IndexOf(b, c)
    decreases |a|
  {
    if a != [] {
      assert (a + b)[1..] == a[1..] + b;
      IndexOfPrefix(a[1..], b, c);
    } else {
      assert a + b == b;
    }
  }

  /** Splitting at a separator-free head peels that head off as the first field. */
  lemma SplitHead(head: string, sep: char, rest: string)
    requires sep !in head
    ensures Split(head + [sep] + rest, sep) == [head] + Split(rest, sep)
  {
    var s := head + [sep] + rest;
    assert s == head + ([sep] + rest);
    IndexOfPrefix(head, [sep] + rest, sep);
    assert s[..|head|] == head;
    assert s[|head| + 1..] == rest;
  }

  /** The first field of `s`, and what the fields after it are. */
  lemma SplitFirst(s: string, sep: char)
    ensures Split(s, sep)[0] == s[..IndexOf(s, sep)]
    ensures IndexOf(s, sep) == |s| ==> Split(s, sep) == [s]
    ensures IndexOf(s, sep) < |s| ==>
              Split(s, sep)[1..] == Split(s[IndexOf(s, sep) + 1..], sep)
  {
  }

  /** Splitting a join of separator-free fields gives the fields back. */
  lemma {:induction false} SplitJoin(fields: seq<string>, sep: char)
    requires |fields| >= 1
    requires forall k :: 0 <= k < |fields| ==> sep !in fields[k]
    ensures Split(Join(fields, sep), sep) == fields
    decreases |fields|
  {
    if |fields| == 1 {
      IndexOfPrefix(fields[0], [], sep);
      assert fields[0] + [] == fields[0];
    } else {
      SplitHead(fields[0], sep, Join(fields[1..], sep));
      SplitJoin(fields[1..], sep);
      assert fields == [fields[0]] + fields[1..];
    }
  }

  /** The fields of `s` are the only separator-free sequence that joins to `s`. */
  lemma SplitUnique(s: string, sep: char, fields: seq<string>)
    requires |fields| >= 1
    requires forall k :: 0 <= k < |fields| ==> sep !in fields[k]
    requires Join(fields, sep) == s
    ensures Split(s, sep) == fields
  {
    SplitJoin(fields, sep);
  }

  /** A line with the `'\r'` of a `"\r\n"` terminator removed. */
  function StripCr(line: string): string
  {
    if |line| > 0 && line[|line| - 1] == '\r' then line[..|line| - 1] else line
  }

  /**
   * `s.lines()`: split at each `'\n'`, dropping one `'\r'` right before it;
   * the last line needs no terminator, and a terminator at the very end does
   * not start an empty last line. A `'\r'` not followed by `'\n'` is kept.
   */
  function Lines(s: string): (ls: seq<string>)
    ensures s == [] <==> ls == []
    ensures forall k :: 0 <= k < |ls| ==> '\n' !in ls[k]
    decreases |s|
  {
    if s == [] then []
    else
      var i := IndexOf(s, '\n');
      if i == |s| then [s] else [StripCr(s[..i])] + Lines(s[i + 1..])
  }

  /** Each line followed by `ending`, concatenated: a file written line by line. */
  function Terminated(ls: seq<string>, ending: string): string
  {
    if ls == [] then [] else ls[0] + ending + Terminated(ls[1..], ending)
  }

  /** The first line ends at the first newline, `i`. */
  lemma LinesAt(s: string, i: nat)
    requires i < |s| && s[i] == '\n'
    requires forall k :: 0 <= k < i ==> s[k] != '\n'
    ensures Lines(s) == [StripCr(s[..i])] + Lines(s[i + 1..])
  {
  }

  /** The first line of `body + "\n" + rest` is `body` less the `'\r'` before the terminator. */
  lemma LinesHead(body: string, rest: string)
    requires '\n' !in body
    ensures Lines(body + "\n" + rest) == [StripCr(body)] + Lines(rest)
  {
    var s := body + "\n" + rest;
    var i := |body|;
    assert forall k :: 0 <= k < i ==> s[k] == body[k];
    LinesAt(s, i);
    assert s[..i] == body;
    assert s[i + 1..] == rest;
  }

  lemma LinesOfTerminatedHead(l: string, rest: string, ending: string)
    requires '\n' !in l
    requires ending == "\n" || ending == "\r\n"
    requires ending == "\n" ==> l == [] || l[|l| - 1] != '\r'
    ensures Lines(l + ending + rest) == [l] + Lines(rest)
  {
    if ending == "\n" {
      LinesHead(l, rest);
    } else {
      var body := l + ['\r'];
      assert l + ending + rest == body + "\n" + rest;
      LinesHead(body, rest);
      assert body[..|body| - 1] == l;
    }
  }

  /**
   * Writing lines with `"\n"` terminators and reading them back gives the
   * lines again, provided no line contains `'\n'` or ends with a `'\r'`
   * that the terminator would swallow.
   */
  lemma {:induction false} LinesOfTerminated(ls: seq<string>)
    requires forall k :: 0 <= k < |ls| ==> '\n' !in ls[k]
    requires forall k :: 0 <= k < |ls| ==> ls[k] == [] || ls[k][|ls[k]| - 1] != '\r'
    ensures Lines(Terminated(ls, "\n")) == ls
    decreases |ls|
  {
    if ls != [] {
      LinesOfTerminatedHead(ls[0], Terminated(ls[1..], "\n"), "\n");
      LinesOfTerminated(ls[1..]);
      assert ls == [ls[0]] + ls[1..];
    }
  }

  /** With `"\r\n"` terminators every `'\n'`-free line comes back unchanged. */
  lemma {:induction false} LinesOfCrlfTerminated(ls: seq<string>)
    requires forall k :: 0 <= k < |ls| ==> '\n' !in ls[k]
    ensures Lines(Terminated(ls, "\r\n")) == ls
    decreases |ls|
  {
    if ls != [] {
      LinesOfTerminatedHead(ls[0], Terminated(ls[1..], "\r\n"), "\r\n");
      LinesOfCrlfTerminated(ls[1..]);
      assert ls == [ls[0]] + ls[1..];
    }
  }

  /** Appending a newline leaves the first line of a text that already has one. */
  lemma LinesAppendedAt(s: string, i: nat)
    requires i < |s| && s[i] == '\n'
    requires forall k :: 0 <= k < i ==> s[k] != '\n'
    ensures Lines(s + "\n") == [StripCr(s[..i])] + Lines(s[i + 1..] + "\n")
  {
    var t := s + "\n";
    assert forall k :: 0 <= k <= i ==> t[k] == s[k];
    LinesAt(t, i);
    assert t[..i] == s[..i] && t[i + 1..] == s[i + 1..] + "\n";
  }

  /** A text without a newline is one line, with or without a newline after it. */
  lemma LinesSingle(s: string)
    requires s != [] && s[|s| - 1] != '\r' && IndexOf(s, '\n') == |s|
    ensures Lines(s) == [s] && Lines(s + "\n") == [s]
  {
    var t := s + "\n";
    assert forall k :: 0 <= k < |s| ==> t[k] == s[k];
    LinesAt(t, |s|);
    assert StripCr(s) == s;
  }

  /** A final newline does not add an empty last line. */
  lemma {:induction false} LinesTrailingNewline(s: string)
    requires s != [] && s[|s| - 1] != '\n' && s[|s| - 1] != '\r'
    ensures Lines(s + "\n") == Lines(s)
    decreases |s|
  {
    var i := IndexOf(s, '\n');
    if i == |s| {
      LinesSingle(s);
    } else {
      LinesAt(s, i);
      LinesAppendedAt(s, i);
      var rest := s[i + 1..];
      LinesTrailingNewline(rest);
    }
  }

  /**
   * Rust's `char::is_whitespace`: the characters with the Unicode
   * White_Space property.
   */
  predicate IsWhitespace(c: char)
  {
    || ('\t' <= c <= '\r')
    || c == ' '
    || c == '\U{85}'
    || c == '\U{A0}'
    || c == '\U{1680}'
    || ('\U{2000}' <= c <= '\U{200A}')
    || c == '\U{2028}'
    || c == '\U{2029}'
    || c == '\U{202F}'
    || c == '\U{205F}'
    || c == '\U{3000}'
  }

  /** `s.trim_start()`: the suffix left after dropping leading whitespace. */
  function TrimStart(s: string): (r: string)
    ensures |r| <= |s| && r == s[|s| - |r|..]
    ensures forall k :: 0 <= k < |s| - |r| ==> IsWhitespace(s[k])
    ensures r == [] || !IsWhitespace(r[0])
    decreases |s|
  {
    if s != [] && IsWhitespace(s[0]) then TrimStart(s[1..]) else s
  }

  /** `s.trim_end()`: the prefix left after dropping trailing whitespace. */
  function TrimEnd(s: string): (r: string)
    ensures |r| <= |s| && r == s[..|r|]
    ensures forall k :: |r| <= k < |s| ==> IsWhitespace(s[k])
    ensures r == [] || !IsWhitespace(r[|r| - 1])
    decreases |s|
  {
    if s != [] && IsWhitespace(s[|s| - 1]) then TrimEnd(s[..|s| - 1]) else s
  }

  /** `s.trim()`: leading and trailing whitespace removed. */
  function Trim(s: string): string
  {
    TrimEnd(TrimStart(s))
  }

  predicate AllWhitespace(s: string)
  {
    forall k :: 0 <= k < |s| ==> IsWhitespace(s[k])
  }

  /** Text that neither starts nor ends with whitespace. */
  predicate Tight(x: string)
  {
    x == [] || (!IsWhitespace(x[0]) && !IsWhitespace(x[|x| - 1]))
  }

  /** Trimming the start removes exactly a whitespace prefix. */
  lemma TrimStartPadded(pre: string, y: string)
    requires AllWhitespace(pre)
    requires y == [] || !IsWhitespace(y[0])
    ensures TrimStart(pre + y) == y
  {
    var s := pre + y;
    var a := TrimStart(s);
    assert forall k :: 0 <= k < |pre| ==> IsWhitespace(s[k]);
    if y == [] {
      assert s == pre;
    } else {
      assert !IsWhitespace(s[|pre|]);
      var m := |s| - |a|;
      assert m <= |pre|;
      assert a[0] == s[m];
      assert !IsWhitespace(s[m]);
      assert m == |pre|;
      assert s[|pre|..] == y;
    }
  }

  /** Trimming the end removes exactly a whitespace suffix. */
  lemma TrimEndPadded(y: string, post: string)
    requires AllWhitespace(post)
    requires y == [] || !IsWhitespace(y[|y| - 1])
    ensures TrimEnd(y + post) == y
  {
    var s := y + post;
    var b := TrimEnd(s);
    assert forall k :: |y| <= k < |s| ==> IsWhitespace(s[k]);
    if y == [] {
      assert s == post;
    } else {
      assert !IsWhitespace(s[|y| - 1]);
      assert |b| >= |y|;
      assert b[|b| - 1] == s[|b| - 1];
      assert !IsWhitespace(s[|b| - 1]);
      assert |b| == |y|;
      assert s[..|y|] == y;
    }
  }

  /**
   * Trimming removes exactly the whitespace padding: `Trim(pre + x + post)`
   * is `x` whenever `pre` and `post` are whitespace and `x` is tight.
   */
  lemma TrimPadded(pre: string, x: string, post: string)
    requires AllWhitespace(pre) && AllWhitespace(post) && Tight(x)
    ensures Trim(pre + x + post) == x
  {
    if x == [] {
      assert pre + x + post == pre + post;
      assert AllWhitespace(pre + post);
      TrimStartPadded(pre + post, []);
      assert pre + post + [] == pre + post;
    } else {
      assert pre + x + post == pre + (x + post);
      TrimStartPadded(pre, x + post);
      TrimEndPadded(x, post);
    }
  }

  /** The result of trimming is tight, and trimming twice changes nothing more. */
  lemma TrimTight(s: string)
    ensures Tight(Trim(s))
    ensures Trim(Trim(s)) == Trim(s)
  {
    var a := TrimStart(s);
    var r := TrimEnd(a);
    if r != [] {
      assert r[0] == a[0];
    }
  }
}
