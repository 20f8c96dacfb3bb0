/** The pretty-printer's token stream.

    The printer receives words, breaks, box openings and closings and an
    end-of-file mark. Its line-breaking algorithm is not part of this model:
    the log records the tokens in order, and `Render` gives the text a
    printer produces when every box fits on its line, where a word is its
    text, a break is `blank` spaces, and a hard break (a break of the
    "infinite" width 0xffff) is a newline. */
module Pp {

  datatype Breaks = Consistent | Inconsistent

  datatype Token =
    | Str(text: string)
    | Break(blank: nat, offset: int)
    | Begin(indent: nat, breaks: Breaks)
    | End
    | Eof

  /** The width that marks a break as hard. */
  const SizeInfinity: nat := 0xffff

  type Log = seq<Token>

  const HardbreakTok: Token := Break(SizeInfinity, 0)
  const SpaceTok: Token := Break(1, 0)
  const ZerobreakTok: Token := Break(0, 0)

  predicate IsHardbreakTok(t: Token)
  {
    t.Break? && t.blank == SizeInfinity
  }

  /** The most recent token; an empty log reports end-of-file, as a fresh
      printer's token buffer starts with one. */
  function LastToken(log: Log): Token
  {
    if |log| == 0 then Eof else log[|log| - 1]
  }

  function RenderToken(t: Token): string
  {
    match t
    case Str(s) => s
    case Break(blank, _) => if blank == SizeInfinity then "\n" else Spaces(blank)
    case _ => ""
  }

  function Spaces(n: nat): (s: string)
    ensures |s| == n
    ensures forall i :: 0 <= i < n ==> s[i] == ' '
  {
    if n == 0 then "" else " " + Spaces(n - 1)
  }

  function Render(log: Log): string
  {
    if |log| == 0 then "" else RenderToken(log[0]) + Render(log[1..])
  }

  /** Rendering distributes over concatenation of logs. */
  lemma {:induction false} RenderAppend(a: Log, b: Log)
    ensures Render(a + b) == Render(a) + Render(b)
    decreases |a|
  {
    if |a| == 0 {
      assert a + b == b;
    } else {
      assert (a + b)[1..] == a[1..] + b;
      RenderAppend(a[1..], b);
    }
  }

  /** Rendering a log with one more token at its end. */
  lemma RenderSnoc(a: Log, t: Token)
    ensures Render(a + [t]) == Render(a) + RenderToken(t)
  {
    RenderAppend(a, [t]);
    RenderOne(t);
  }

  /** Rendering a log of one, two or three tokens. */
  lemma RenderShort(a: Token, b: Token, c: Token)
    ensures Render([a]) == RenderToken(a)
    ensures Render([a, b]) == RenderToken(a) + RenderToken(b)
    ensures Render([a, b, c]) == RenderToken(a) + RenderToken(b) + RenderToken(c)
  {
    RenderOne(a);
    RenderTwo(a, b);
    RenderTwo(b, c);
    assert [a, b, c][1..] == [b, c];
  }

  lemma RenderOne(a: Token)
    ensures Render([a]) == RenderToken(a)
  {
    assert [a][1..] == [];
  }

  lemma RenderTwo(a: Token, b: Token)
    ensures Render([a, b]) == RenderToken(a) + RenderToken(b)
  {
    assert [a, b][1..] == [b];
    RenderOne(b);
  }
}
