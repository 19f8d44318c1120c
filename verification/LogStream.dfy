/**
 * Standard output is also sent on to the console, in pieces that end at a line
 * end. The last, unfinished line is kept until its end arrives in a later
 * chunk, unless it gets too long.
 */
module LogStream {
  import opened Common

  const MAX_STREAM_BUFFER_LENGTH := 1024 * 1024

  /** What the console is given: text that a line end followed, or an overlong buffer as it was. */
  datatype Piece = Lines(text: string) | Overflow(text: string)

  datatype State = State(sent: seq<Piece>, buf: string)

  const Start := State([], "")

  /** The position of the last line end, or -1. */
  function LastNewline(s: string): (eol: int)
    ensures -1 <= eol < |s|
    ensures eol >= 0 ==> s[eol] == '\n'
    ensures forall i :: eol < i < |s| ==> s[i] != '\n'
  {
    if s == "" then -1
    else if s[|s| - 1] == '\n' then |s| - 1
    else LastNewline(s[..|s| - 1])
  }

  /** What follows the last line end. */
  function Tail(s: string): string {
    s[LastNewline(s) + 1..]
  }

  function Write(s: State, chunk: string): State {
    var buf := s.buf + chunk;
    if |buf| > MAX_STREAM_BUFFER_LENGTH then State(s.sent + [Overflow(buf)], "")
    else
      var eol := LastNewline(buf);
      if eol == -1 then s.(buf := buf)
      else State(s.sent + [Lines(buf[..eol])], buf[eol + 1..])
  }

  function Run(chunks: seq<string>): State {
    if chunks == [] then Start
    else Write(Run(chunks[..|chunks| - 1]), chunks[|chunks| - 1])
  }

  /** The input text that a piece stands for. */
  function Source(p: Piece): string {
    match p
    case Lines(text) => text + "\n"
    case Overflow(text) => text
  }

  function Joined(sent: seq<Piece>): string {
    if sent == [] then "" else Joined(sent[..|sent| - 1]) + Source(sent[|sent| - 1])
  }

  /** Some write found the buffer over the limit. */
  predicate Overflowed(sent: seq<Piece>) {
    exists i :: 0 <= i < |sent| && sent[i].Overflow?
  }

  predicate OneLine(s: string) {
    forall i :: 0 <= i < |s| ==> s[i] != '\n'
  }

  /** A text cut at a line end such that none follows is cut at its last one. */
  lemma CutAtLast(a: string, b: string)
    requires OneLine(b)
    requires a == "" || a[|a| - 1] == '\n'
    ensures LastNewline(a + b) == |a| - 1 && Tail(a + b) == b
  {
    var s := a + b;
    if a != "" { assert s[|a| - 1] == '\n'; }
    forall i | |a| <= i < |s| ensures s[i] != '\n' {
      assert s[i] == b[i - |a|];
    }
    assert s[|a|..] == b;
  }

  lemma JoinedSnoc(sent: seq<Piece>, p: Piece)
    ensures Joined(sent + [p]) == Joined(sent) + Source(p)
  {
    assert (sent + [p])[..|sent|] == sent;
  }

  /**
   * For every sequence of chunks: nothing is lost or changed, also where the
   * limit cuts a line, and what is kept back is a single unfinished line that
   * fits the limit.
   */
  lemma {:induction false} NothingLost(chunks: seq<string>)
    ensures Accounts(Run(chunks), Flatten(chunks))
  {
    hide *;
    if chunks == [] {
      AccountsStart();
    } else {
      var before, last := chunks[..|chunks| - 1], chunks[|chunks| - 1];
      NothingLost(before);
      AccountsNext(before, last);
      assert chunks == before + [last];
    }
  }

  lemma AccountsStart()
    ensures Accounts(Run([]), Flatten([]))
  {
  }

  lemma AccountsNext(before: seq<string>, last: string)
    requires Accounts(Run(before), Flatten(before))
    ensures Accounts(Run(before + [last]), Flatten(before + [last]))
  {
    hide *;
    RunSnoc(before, last);
    WriteKeeps(Run(before), last, Flatten(before));
    FlattenSnoc(before, last);
  }

  lemma RunSnoc(before: seq<string>, last: string)
    ensures Run(before + [last]) == Write(Run(before), last)
  {
    hide Write;
    assert (before + [last])[..|before|] == before;
  }

  /** What was sent and what is kept are together the input. */
  ghost predicate Accounts(s: State, input: string) {
    && Joined(s.sent) + s.buf == input
    && OneLine(s.buf) && |s.buf| <= 1_048_576
  }

  lemma RunNext(chunks: seq<string>)
    requires chunks != []
    ensures Run(chunks) == Write(Run(chunks[..|chunks| - 1]), chunks[|chunks| - 1])
  {
  }

  lemma Assoc(a: string, b: string, c: string)
    ensures a + b + c == a + (b + c)
  {
  }

  lemma CutAround(s: string, i: nat)
    requires i < |s| && s[i] == '\n'
    ensures s[..i] + "\n" + s[i + 1..] == s
  {
  }

  /** What one write does, case by case. */
  lemma WriteCases(s: State, chunk: string)
    ensures
      var buf := s.buf + chunk;
      var t, eol := Write(s, chunk), LastNewline(buf);
      if |buf| > MAX_STREAM_BUFFER_LENGTH then t == State(s.sent + [Overflow(buf)], "")
      else if eol == -1 then t == State(s.sent, buf) && OneLine(buf)
      else t == State(s.sent + [Lines(buf[..eol])], buf[eol + 1..]) && OneLine(buf[eol + 1..])
    ensures OneLine("")
  {
    hide LastNewline;
  }

  lemma WriteKeeps(s: State, chunk: string, input: string)
    requires Accounts(s, input)
    ensures Accounts(Write(s, chunk), input + chunk)
  {
    hide Write, LastNewline, Joined, OneLine;
    var buf := s.buf + chunk;
    var eol, sent := LastNewline(buf), Joined(s.sent);
    WriteCases(s, chunk);
    Assoc(sent, s.buf, chunk);
    if |buf| > MAX_STREAM_BUFFER_LENGTH {
      JoinedOverflow(s.sent, buf);
    } else if eol == -1 {
    } else {
      JoinedLines(s.sent, buf[..eol]);
      CutAround(buf, eol);
      Assoc(sent, buf[..eol] + "\n", buf[eol + 1..]);
    }
  }

  lemma JoinedOverflow(sent: seq<Piece>, text: string)
    ensures Joined(sent + [Overflow(text)]) + "" == Joined(sent) + text
  {
    JoinedSnoc(sent, Overflow(text));
  }

  lemma JoinedLines(sent: seq<Piece>, text: string)
    ensures Joined(sent + [Lines(text)]) == Joined(sent) + (text + "\n")
  {
    JoinedSnoc(sent, Lines(text));
  }

  lemma {:induction false} JoinedEndsLine(sent: seq<Piece>)
    requires !Overflowed(sent)
    ensures Joined(sent) == "" || Joined(sent)[|Joined(sent)| - 1] == '\n'
  {
    if sent != [] {
      assert !sent[|sent| - 1].Overflow?;
    }
  }

  /** Without an overflow, what has been sent and what is kept depend on the input alone. */
  lemma SplitAtLastLine(chunks: seq<string>)
    requires !Overflowed(Run(chunks).sent)
    ensures var input, s := Flatten(chunks), Run(chunks);
            Joined(s.sent) == input[..LastNewline(input) + 1] && s.buf == Tail(input)
  {
    var s := Run(chunks);
    NothingLost(chunks);
    JoinedEndsLine(s.sent);
    CutAtLast(Joined(s.sent), s.buf);
  }

  /** However the same text is cut into chunks, the console gets the same text. */
  lemma ChunkIndependence(a: seq<string>, b: seq<string>)
    requires Flatten(a) == Flatten(b)
    requires !Overflowed(Run(a).sent) && !Overflowed(Run(b).sent)
    ensures Joined(Run(a).sent) == Joined(Run(b).sent) && Run(a).buf == Run(b).buf
  {
    SplitAtLastLine(a);
    SplitAtLastLine(b);
  }

  /** Every chunk fits the limit together with the unfinished line before it. */
  ghost predicate Fits(chunks: seq<string>) {
    forall k :: 0 <= k < |chunks| ==> |Tail(Flatten(chunks[..k]))| + |chunks[k]| <= 1_048_576
  }

  /** When exactly the limit is never hit, in terms of the chunks. */
  lemma {:induction false} OverflowsUnlessFits(chunks: seq<string>)
    ensures !Overflowed(Run(chunks).sent) <==> Fits(chunks)
  {
    if chunks != [] {
      hide *;
      var n := |chunks| - 1;
      var before := chunks[..n];
      OverflowsUnlessFits(before);
      RunNext(chunks);
      OverflowNext(Run(before), chunks[n]);
      FitsNext(chunks);
      if !Overflowed(Run(before).sent) {
        SplitAtLastLine(before);
      }
    }
  }

  lemma OverflowNext(s: State, chunk: string)
    ensures Overflowed(Write(s, chunk).sent) <==>
            Overflowed(s.sent) || |s.buf| + |chunk| > 1_048_576
  {
    hide LastNewline;
    var t := Write(s, chunk);
    assert forall i :: 0 <= i < |s.sent| ==> t.sent[i] == s.sent[i];
    if |s.buf| + |chunk| > MAX_STREAM_BUFFER_LENGTH {
      assert t.sent[|s.sent|].Overflow?;
    }
  }

  lemma FitsNext(chunks: seq<string>)
    requires chunks != []
    ensures var n := |chunks| - 1;
            Fits(chunks) <==> Fits(chunks[..n]) && |Tail(Flatten(chunks[..n]))| + |chunks[n]| <= 1_048_576
  {
    hide Tail, Flatten;
    var n := |chunks| - 1;
    forall k | 0 <= k < n ensures chunks[..n][..k] == chunks[..k] && chunks[..n][k] == chunks[k] {
    }
  }

  /**
   * In every run, a chunk makes one piece at most: the overlong buffer as it is,
   * or, if the chunk has a line end, the lines up to the last one.
   */
  lemma OnePieceEach(chunks: seq<string>)
    requires chunks != []
    ensures var chunk := chunks[|chunks| - 1];
            var s, r := Run(chunks[..|chunks| - 1]), Run(chunks);
            if |s.buf| + |chunk| > 1_048_576 then r.sent == s.sent + [Overflow(s.buf + chunk)]
            else if '\n' in chunk then |r.sent| == |s.sent| + 1 && s.sent < r.sent && r.sent[|s.sent|].Lines?
            else r.sent == s.sent
  {
    NothingLost(chunks[..|chunks| - 1]);
    RunNext(chunks);
    hide Run, Write, Joined, OneLine;
    OnePiece(Run(chunks[..|chunks| - 1]), chunks[|chunks| - 1]);
  }

  lemma OnePiece(s: State, chunk: string)
    requires OneLine(s.buf)
    ensures var r := Write(s, chunk);
            if |s.buf| + |chunk| > 1_048_576 then r.sent == s.sent + [Overflow(s.buf + chunk)]
            else if '\n' in chunk then |r.sent| == |s.sent| + 1 && s.sent < r.sent && r.sent[|s.sent|].Lines?
            else r.sent == s.sent
  {
    var buf := s.buf + chunk;
    NewlineInChunk(s.buf, chunk);
    hide LastNewline;
  }

  lemma NewlineInChunk(buf: string, chunk: string)
    requires OneLine(buf)
    ensures LastNewline(buf + chunk) == -1 <==> '\n' !in chunk
  {
    var all := buf + chunk;
    var eol := LastNewline(all);
    if '\n' in chunk {
      var i :| 0 <= i < |chunk| && chunk[i] == '\n';
      assert all[|buf| + i] == '\n';
    }
    if eol >= 0 {
      assert eol >= |buf|;
      assert chunk[eol - |buf|] == '\n';
    }
  }

  /** Beyond the limit the pieces do depend on the chunks: the same text, cut twice. */
  lemma LimitDependsOnChunks()
    ensures var long := seq(MAX_STREAM_BUFFER_LENGTH, _ => 'a');
            && Flatten(["\n" + long]) == Flatten(["\n", long])
            && Run(["\n" + long]) == State([Overflow("\n" + long)], "")
            && Run(["\n", long]) == State([Lines("")], long)
  {
    var long := seq(MAX_STREAM_BUFFER_LENGTH, _ => 'a');
    FlattenOne("\n" + long);
    FlattenOne("\n");
    FlattenSnoc(["\n"], long);
    assert ["\n"] + [long] == ["\n", long];
    RunOne("\n" + long);
    RunOne("\n");
    RunTwo("\n", long);
    hide *;
    WriteCases(Start, "\n" + long);
    WriteCases(Start, "\n");
    WriteLong(long);
  }

  lemma RunOne(chunk: string)
    ensures Run([chunk]) == Write(Start, chunk)
  {
    hide Write;
    assert [chunk][..0] == [];
  }

  lemma RunTwo(a: string, b: string)
    ensures Run([a, b]) == Write(Run([a]), b)
  {
    hide Write;
    assert [a, b][..1] == [a];
  }

  lemma WriteLong(long: string)
    requires |long| == MAX_STREAM_BUFFER_LENGTH && OneLine(long)
    ensures Write(Start, "\n" + long) == State([Overflow("\n" + long)], "")
    ensures Write(Write(Start, "\n"), long) == State([Lines("")], long)
  {
    assert "" + ("\n" + long) == "\n" + long;
    assert "" + "\n" == "\n";
    assert LastNewline("\n") == 0;
    assert Write(Start, "\n") == State([Lines("")], "");
    assert "" + long == long;
    assert LastNewline(long) == -1;
  }

  // ----- the wrapped stream -----

  class WrappedStream {
    var buf: string
    /** The calls made to the console and to the stream itself. */
    var sent: seq<Piece>
    var through: seq<string>

    ghost function View(): State
      reads this
    {
      State(sent, buf)
    }

    constructor ()
      ensures View() == Start && through == []
    {
      buf, sent, through := "", [], [];
    }

    static method LastIndexOfNewline(s: string) returns (i: int)
      ensures i == LastNewline(s)
    {
      i := |s| - 1;
      while i >= 0 && s[i] != '\n'
        invariant -1 <= i < |s|
        invariant forall k :: i < k < |s| ==> s[k] != '\n'
      {
        i := i - 1;
      }
    }

    method WriteChunk(chunk: string)
      modifies this
      ensures View() == Write(old(View()), chunk)
      ensures through == old(through) + [chunk]
    {
      buf := buf + chunk;
      var over := |buf| > MAX_STREAM_BUFFER_LENGTH;
      var eol := |buf|;
      if !over { eol := LastIndexOfNewline(buf); }
      if eol != -1 {
        var text := buf[..eol];
        assert over ==> text == buf;
        sent := sent + [if over then Overflow(text) else Lines(text)];
        buf := if eol + 1 <= |buf| then buf[eol + 1..] else "";
      }
      WriteCases(old(View()), chunk);
      through := through + [chunk];
    }
  }
}
