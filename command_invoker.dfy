/** The command history: a stack of executed commands, undone most recent first. */
module CommandHandlers {
  import opened Errors
  import opened Encodings
  import opened Commands

  /** One call that the invoker made on a command. */
  datatype Call = Executed(command: Command) | Undone(command: Command)

  /** The undo calls for the `i` most recent commands of `h`, most recent first. */
  function UndoneTop(h: seq<Command>, i: nat): seq<Call>
    requires i <= |h|
  {
    if i == 0 then [] else UndoneTop(h, i - 1) + [Undone(h[|h| - i])]
  }

  /** The names with the top of the stack first. */
  function NamesTopFirst(h: seq<Command>): (names: seq<string>)
    ensures |names| == |h|
    ensures forall i :: 0 <= i < |h| ==> names[i] == Name(h[|h| - 1 - i])
  {
    if h == [] then [] else [Name(h[|h| - 1])] + NamesTopFirst(h[..|h| - 1])
  }

  /** What the commands of `h` may change, together. */
  function Footprints(h: seq<Command>): set<object?>
  {
    set c, o | c in h && o in Footprint(c) :: o
  }

  /** One more undo call extends the trace by the next command down the stack. */
  lemma TraceStep(t: seq<Call>, h: seq<Command>, i: nat)
    requires i < |h|
    ensures t + UndoneTop(h, i) + [Undone(h[|h| - (i + 1)])] == t + UndoneTop(h, i + 1)
  {
  }

  lemma FootprintWithin(h: seq<Command>, k: nat)
    requires k < |h|
    ensures Footprint(h[k]) <= Footprints(h)
  {
    assert h[k] in h;
  }

  lemma FootprintsPrefix(h: seq<Command>, k: nat)
    requires k <= |h|
    ensures Footprints(h[..k]) <= Footprints(h)
  {
    forall o | o in Footprints(h[..k]) ensures o in Footprints(h) {
      var d :| d in h[..k] && o in Footprint(d);
      assert d in h;
    }
  }

  /** Undoing the top command and then `k` more gives the calls for `k + 1`. */
  lemma {:induction false} UndoneTopShift(h: seq<Command>, k: nat)
    requires k < |h|
    ensures [Undone(h[|h| - 1])] + UndoneTop(h[..|h| - 1], k) == UndoneTop(h, k + 1)
  {
    if k > 0 {
      var rest := h[..|h| - 1];
      UndoneTopShift(h, k - 1);
      calc {
        [Undone(h[|h| - 1])] + UndoneTop(rest, k);
        [Undone(h[|h| - 1])] + (UndoneTop(rest, k - 1) + [Undone(rest[|rest| - k])]);
        ([Undone(h[|h| - 1])] + UndoneTop(rest, k - 1)) + [Undone(rest[|rest| - k])];
        { assert rest[|rest| - k] == h[|h| - (k + 1)]; }
        UndoneTop(h, k) + [Undone(h[|h| - (k + 1)])];
      }
    }
  }

  lemma TraceShift(t: seq<Call>, h: seq<Command>, k: nat)
    requires k < |h|
    ensures t + [Undone(h[|h| - 1])] + UndoneTop(h[..|h| - 1], k) == t + UndoneTop(h, k + 1)
  {
    UndoneTopShift(h, k);
    assert t + [Undone(h[|h| - 1])] + UndoneTop(h[..|h| - 1], k) == t + ([Undone(h[|h| - 1])] + UndoneTop(h[..|h| - 1], k));
  }

  lemma FootprintsAppend(h: seq<Command>, c: Command)
    ensures Footprints(h + [c]) == Footprints(h) + Footprint(c)
  {
    forall o | o in Footprints(h) ensures o in Footprints(h + [c]) {
      var d :| d in h && o in Footprint(d);
      assert d in h + [c];
    }
    assert c in h + [c];
  }

  class CommandInvoker {
    /** The stack, bottom first: the top is the last element. */
    var history: seq<Command>
    /** Every call made on a command, in order. */
    ghost var trace: seq<Call>

    constructor ()
      ensures history == [] && trace == []
    {
      history := [];
      trace := [];
    }

    /** The names of the commands, most recent first. */
    method GetCommandHistory() returns (names: seq<string>)
      ensures names == NamesTopFirst(history)
    {
      names := [];
      var i := |history|;
      while i > 0
        invariant 0 <= i <= |history|
        invariant names == NamesTopFirst(history)[..|history| - i]
      {
        i := i - 1;
        names := names + [Name(history[i])];
      }
    }

    /** Runs the command, then pushes it; a command that throws is not pushed. */
    method Execute(command: Command, codec: Codec) returns (r: Outcome)
      requires Ready(command)
      modifies this, Footprint(command)
      ensures trace == old(trace) + [Executed(command)]
      ensures history == if r.Pass? then old(history) + [command] else old(history)
      ensures Applied(command, codec, r)
      ensures Untouched(command, old(FieldsOf(FileOf(command))), FieldsOf(FileOf(command)))
      ensures !command.Interpret? ==> r == Pass
    {
      r := ExecuteCommand(command, codec);
      trace := trace + [Executed(command)];
      if r.Pass? {
        history := history + [command];
      }
    }

    /** Pops and undoes `numberOfCommands` commands, most recent first; a count below
        1 or above the stack size throws before anything is popped. A command whose
        undo throws has already been popped, so it and only it is lost with the
        commands undone before it. The last command undone has put its captured
        value back. */
    method Undo(numberOfCommands: int, codec: Codec) returns (r: Outcome)
      requires forall c :: c in history ==> Ready(c)
      modifies this, Footprints(history)
      ensures numberOfCommands < 1 || numberOfCommands > |old(history)| ==>
                r == Fail(InvalidOperation) && history == old(history) && trace == old(trace)
      ensures 1 <= numberOfCommands <= |old(history)| ==>
                |old(history)| - numberOfCommands <= |history| <= |old(history)| &&
                history == old(history)[..|history|] &&
                trace == old(trace) + UndoneTop(old(history), |old(history)| - |history|)
      ensures r.Pass? ==> |history| == |old(history)| - numberOfCommands
      ensures 1 <= numberOfCommands <= |old(history)| ==>
                |history| < |old(history)| && Reverted(old(history)[|history|], codec, r)
      ensures numberOfCommands == 1 <= |old(history)| ==>
                var c := old(history)[|old(history)| - 1];
                Untouched(c, old(FieldsOf(FileOf(c))), FieldsOf(FileOf(c)))
      ensures 1 <= numberOfCommands <= |old(history)| &&
              (forall i :: |old(history)| - numberOfCommands <= i < |old(history)| ==> !old(history)[i].Interpret?) ==>
                r == Pass
    {
      if numberOfCommands < 1 || numberOfCommands > |history| {
        return Fail(InvalidOperation);
      }
      ghost var h := history;
      var command := history[|history| - 1];
      history := history[..|history| - 1];
      FootprintWithin(h, |h| - 1);
      TraceStep(old(trace), h, 0);
      trace := trace + [Undone(command)];
      assert this !in Footprint(command);
      r := UndoCommand(command, codec);
      if numberOfCommands > 1 && r.Pass? {
        FootprintsPrefix(h, |h| - 1);
        r := UndoMore(numberOfCommands - 1, codec);
        TraceShift(old(trace), h, |h| - 1 - |history|);
      }
    }

    /** The rest of `Undo`'s loop: pops and undoes `count` commands, most recent
        first, stopping after the first undo that throws. */
    method UndoMore(count: int, codec: Codec) returns (r: Outcome)
      requires 1 <= count <= |history|
      requires forall c :: c in history ==> Ready(c)
      modifies this, Footprints(history)
      ensures |old(history)| - count <= |history| < |old(history)|
      ensures history == old(history)[..|history|]
      ensures trace == old(trace) + UndoneTop(old(history), |old(history)| - |history|)
      ensures r.Pass? ==> |history| == |old(history)| - count
      ensures Reverted(old(history)[|history|], codec, r)
      ensures (forall i :: |old(history)| - count <= i < |old(history)| ==> !old(history)[i].Interpret?) ==>
                r == Pass
    {
      ghost var h := history;
      ghost var last := history[|history| - 1];
      var i := 0;
      r := Pass;
      while i < count && r.Pass?
        invariant 0 <= i <= count
        invariant history == h[..|h| - i]
        invariant trace == old(trace) + UndoneTop(h, i)
        invariant i == 0 ==> r == Pass
        invariant i > 0 ==> last == h[|h| - i] && Reverted(last, codec, r)
        invariant r.Fail? ==> last.Interpret?
        decreases count - i
      {
        var command := history[|history| - 1];
        assert command == h[|h| - (i + 1)];
        history := history[..|history| - 1];
        assert history == h[..|h| - (i + 1)];
        FootprintWithin(h, |h| - (i + 1));
        TraceStep(old(trace), h, i);
        trace := trace + [Undone(command)];
        assert this !in Footprint(command);
        r := UndoCommand(command, codec);
        last := command;
        i := i + 1;
      }
    }
  }

  /** Executing a command that has just been built and then undoing one command
      gives back the value the file had, and the history it had; a reinterpretation
      has also reloaded the buffer in the restored encoding. */
  method ExecuteThenUndo(invoker: CommandInvoker, c: Command, codec: Codec) returns (executed: Outcome, undone: Outcome)
    requires Ready(c) && Captured(c)
    requires forall d :: d in invoker.history ==> Ready(d)
    modifies invoker, Footprints(invoker.history), Footprint(c)
    ensures executed.Pass? ==> invoker.history == old(invoker.history) && Reverted(c, codec, undone)
    ensures executed.Pass? ==> FieldsOf(FileOf(c)) == old(FieldsOf(FileOf(c)))
    ensures executed.Pass? && c.Interpret? ==>
              c.interpret.buffer.fileInstance.inputEncoding == old(c.interpret.buffer.fileInstance.inputEncoding)
    ensures executed.Pass? && c.Convert? ==>
              c.convert.buffer.fileInstance.outputEncoding == old(c.convert.buffer.fileInstance.outputEncoding)
    ensures executed.Pass? && c.Retag? ==>
              c.retag.buffer.fileInstance.endOfLineCharacter == old(c.retag.buffer.fileInstance.endOfLineCharacter)
  {
    ghost var h := invoker.history;
    executed := invoker.Execute(c, codec);
    if executed.Pass? {
      FootprintsAppend(h, c);
      undone := invoker.Undo(1, codec);
    } else {
      undone := executed;
    }
  }

  /** Undoing the n most recent commands calls them in the reverse order of the
      history. */
  lemma {:induction false} UndoneTopOrder(h: seq<Command>, i: nat)
    requires i <= |h|
    ensures |UndoneTop(h, i)| == i
    ensures forall k :: 0 <= k < i ==> UndoneTop(h, i)[k] == Undone(h[|h| - 1 - k])
  {
    if i > 0 {
      UndoneTopOrder(h, i - 1);
    }
  }
}
