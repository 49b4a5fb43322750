/** Text written in sequence to an output stream by code that may throw
    half-way: a printout is the text written so far together with whether
    the writing ran to its end. Both text backends are proved against
    functions built from these pieces. */
module Printing {

  datatype Printed = Printed(text: string, complete: bool)

  function Whole(s: string): Printed { Printed(s, true) }

  /** `b` follows `a` unless `a` threw. */
  function Then(a: Printed, b: Printed): Printed {
    if a.complete then Printed(a.text + b.text, b.complete) else a
  }

  /** Writing `b` after a stream that holds `o` and then `a`'s text. */
  lemma ThenStep(o: string, a: Printed, b: Printed)
    ensures a.complete ==> o + Then(a, b).text == o + a.text + b.text
    ensures !a.complete ==> Then(a, b) == a
  {
    if a.complete {
      assert o + (a.text + b.text) == o + a.text + b.text;
    }
  }

  // ---- joining texts ---------------------------------------------------------

  /** The texts of `xs`, one after the other. */
  function Concat<T>(xs: seq<T>, text: T -> string): string {
    if xs == [] then "" else Concat(xs[..|xs| - 1], text) + text(xs[|xs| - 1])
  }

  lemma ConcatNext<T>(xs: seq<T>, x: T, text: T -> string)
    ensures Concat(xs + [x], text) == Concat(xs, text) + text(x)
  {
    assert (xs + [x])[..|xs|] == xs;
  }

  /** The texts of `xs`, the one at position `k` numbered `start + k`. */
  function Numbered<T>(start: int, xs: seq<T>, text: (int, T) -> string): string {
    if xs == [] then "" else Numbered(start, xs[..|xs| - 1], text) + text(start + |xs| - 1, xs[|xs| - 1])
  }

  /** The printouts of `xs`, one after the other, up to the first that throws. */
  function Joined<T>(xs: seq<T>, part: T -> Printed): Printed {
    if xs == [] then Whole("") else Then(Joined(xs[..|xs| - 1], part), part(xs[|xs| - 1]))
  }

  /** Numbering a split sequence: the second part continues where the first
      part stopped. */
  lemma {:induction false} NumberedSplit<T>(start: int, a: seq<T>, b: seq<T>, text: (int, T) -> string)
    ensures Numbered(start, a + b, text) == Numbered(start, a, text) + Numbered(start + |a|, b, text)
    decreases |b|
  {
    if b == [] {
      assert a + b == a;
    } else {
      var n := |b| - 1;
      assert (a + b)[..|a + b| - 1] == a + b[..n];
      assert (a + b)[|a + b| - 1] == b[n];
      NumberedSplit(start, a, b[..n], text);
    }
  }

  /** The text of the element at position `k` carries the number
      `start + k`. */
  lemma NumberedAt<T>(start: int, xs: seq<T>, k: nat, text: (int, T) -> string)
    requires k < |xs|
    ensures Numbered(start, xs, text) == Numbered(start, xs[..k], text) + text(start + k, xs[k]) + Numbered(start + k + 1, xs[k + 1..], text)
  {
    assert xs == xs[..k] + ([xs[k]] + xs[k + 1..]);
    NumberedSplit(start, xs[..k], [xs[k]] + xs[k + 1..], text);
    NumberedSplit(start + k, [xs[k]], xs[k + 1..], text);
    assert [xs[k]][..0] == [];
  }

  /** A joined printout is complete exactly when every part is. */
  lemma {:induction false} JoinedComplete<T>(xs: seq<T>, part: T -> Printed)
    ensures Joined(xs, part).complete <==> forall j :: 0 <= j < |xs| ==> part(xs[j]).complete
    decreases |xs|
  {
    if xs != [] {
      var front := xs[..|xs| - 1];
      JoinedComplete(front, part);
      assert forall j :: 0 <= j < |front| ==> front[j] == xs[j];
    }
  }

  /** Once a prefix throws, nothing after it is printed. */
  lemma {:induction false} JoinedPrefixStops<T>(xs: seq<T>, n: nat, part: T -> Printed)
    requires n <= |xs| && !Joined(xs[..n], part).complete
    ensures Joined(xs, part) == Joined(xs[..n], part)
    decreases |xs| - n
  {
    if n == |xs| {
      assert xs[..n] == xs;
    } else {
      assert xs[..|xs| - 1][..n] == xs[..n];
      JoinedPrefixStops(xs[..|xs| - 1], n, part);
    }
  }

  /** A prefix's printout is a prefix of the whole printout. */
  lemma {:induction false} JoinedPrefix<T>(xs: seq<T>, n: nat, part: T -> Printed)
    requires n <= |xs|
    ensures var p, w := Joined(xs[..n], part).text, Joined(xs, part).text; |p| <= |w| && w[..|p|] == p
    decreases |xs| - n
  {
    if n == |xs| {
      assert xs[..n] == xs;
    } else {
      assert xs[..|xs| - 1][..n] == xs[..n];
      JoinedPrefix(xs[..|xs| - 1], n, part);
    }
  }
}
