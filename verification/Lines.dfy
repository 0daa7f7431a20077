/** Decoding output as it arrives, and splitting it into lines, piece by piece. */
module Lines {
  type Bytes = seq<bv8>

  /**
   * A streaming decoder: one byte may complete some text, and an incomplete character is kept pending. What was
   * pending at the end is flushed as replacement text. Zero is the state with nothing pending.
   */
  datatype Decoder = Decoder(step: (nat, bv8) -> (nat, string), flush: nat -> string)

  function Decode(d: Decoder, pending: nat, bytes: Bytes): (nat, string) {
    if bytes == [] then (pending, [])
    else
      var before := Decode(d, pending, bytes[..|bytes| - 1]);
      var last := d.step(before.0, bytes[|bytes| - 1]);
      (last.0, before.1 + last.1)
  }

  /** A chunk may end inside a character: decoding goes on where it stopped. */
  lemma {:induction false} DecodeContinues(d: Decoder, pending: nat, a: Bytes, b: Bytes)
    ensures Decode(d, pending, a + b).0 == Decode(d, Decode(d, pending, a).0, b).0
    ensures Decode(d, pending, a + b).1 == Decode(d, pending, a).1 + Decode(d, Decode(d, pending, a).0, b).1
    decreases |b|
  {
    if b == [] {
      assert a + b == a;
    } else {
      var n := |b| - 1;
      DecodeContinues(d, pending, a, b[..n]);
      assert (a + b)[..|a| + n] == a + b[..n];
    }
  }

  const NEWLINE := '\n'

  /** `s.split("\n")`: always at least one piece, the last one being what follows the last newline. */
  function Split(s: string): (pieces: seq<string>)
    ensures |pieces| > 0
  {
    if s == [] then [[]]
    else
      var pieces, c := Split(s[..|s| - 1]), s[|s| - 1];
      if c == NEWLINE then pieces + [[]] else pieces[..|pieces| - 1] + [pieces[|pieces| - 1] + [c]]
  }

  function Complete(s: string): seq<string> {
    Split(s)[..|Split(s)| - 1]
  }

  function Partial(s: string): string {
    Split(s)[|Split(s)| - 1]
  }

  function Join(pieces: seq<string>): string
    requires |pieces| > 0
  {
    if |pieces| == 1 then pieces[0] else Join(pieces[..|pieces| - 1]) + [NEWLINE] + pieces[|pieces| - 1]
  }

  /** The pieces hold no newline, and joining them with newlines gives the text back. */
  lemma {:induction false} SplitIsAnInverseOfJoin(s: string)
    ensures Join(Split(s)) == s && forall i :: 0 <= i < |Split(s)| ==> NEWLINE !in Split(s)[i]
  {
    if s != [] {
      var n := |s| - 1;
      SplitIsAnInverseOfJoin(s[..n]);
      var pieces := Split(s[..n]);
      var m := |pieces| - 1;
      assert s == s[..n] + [s[n]];
      if s[n] == NEWLINE {
        assert (pieces + [[]])[..m + 1] == pieces;
      } else {
        assert Split(s)[..m] == pieces[..m];
        assert pieces == pieces[..m] + [pieces[m]];
      }
    }
  }

  /** Splitting the rest together with the unfinished line gives the same lines as splitting everything. */
  lemma {:induction false} SplitContinues(a: string, b: string)
    ensures Complete(a + b) == Complete(a) + Complete(Partial(a) + b)
    ensures Partial(a + b) == Partial(Partial(a) + b)
  {
    hide Split, Complete, Partial;
    if b == [] {
      assert a + b == a && Partial(a) + b == Partial(a);
      PartialIsUnsplit(a);
    } else {
      var n := |b| - 1;
      SplitContinues(a, b[..n]);
      assert a + b == (a + b[..n]) + [b[n]] && Partial(a) + b == (Partial(a) + b[..n]) + [b[n]];
      SplitSnoc(a + b[..n], b[n]);
      SplitSnoc(Partial(a) + b[..n], b[n]);
    }
  }

  lemma SplitSnoc(s: string, c: char)
    ensures Complete(s + [c]) == if c == NEWLINE then Complete(s) + [Partial(s)] else Complete(s)
    ensures Partial(s + [c]) == if c == NEWLINE then [] else Partial(s) + [c]
  {
    assert (s + [c])[..|s|] == s;
    assert Split(s) == Complete(s) + [Partial(s)];
  }

  lemma {:induction false} NoNewlineNoSplit(s: string)
    requires NEWLINE !in s
    ensures Split(s) == [s]
  {
    if s != [] {
      NoNewlineNoSplit(s[..|s| - 1]);
      assert s[|s| - 1] in s;
      assert s == s[..|s| - 1] + [s[|s| - 1]];
    }
  }

  lemma PartialIsUnsplit(a: string)
    ensures Split(Partial(a)) == [Partial(a)] && Complete(Partial(a)) == [] && Partial(Partial(a)) == Partial(a)
  {
    SplitIsAnInverseOfJoin(a);
    NoNewlineNoSplit(Partial(a));
  }

  function StripReturn(line: string): string {
    if line != [] && line[|line| - 1] == '\r' then line[..|line| - 1] else line
  }

  /** What `trim` removes. */
  predicate IsSpace(c: char) {
    var n := c as int;
    9 <= n <= 13 || n == 32 || n == 0xA0 || n == 0x1680 || 0x2000 <= n <= 0x200A || n == 0x2028 || n == 0x2029
    || n == 0x202F || n == 0x205F || n == 0x3000 || n == 0xFEFF
  }

  predicate IsBlank(line: string) {
    forall c | c in line :: IsSpace(c)
  }
}
