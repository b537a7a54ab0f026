/** What `exec_cell` returns for every end of the Docker call, and what becomes of the session. */
module CellVerdict {
  import opened Prelude
  import opened Text
  import opened Json
  import opened HostDecode
  import opened KernelToHost
  import opened SessionProtocol
  import opened SessionInvariants

  /** The exec succeeded, and its response is within two mebibytes and a valid one that says `r`. */
  ghost predicate Responds(reply: DockerReply, r: CellResult) {
    && reply.Exited? && reply.code == 0 && reply.size <= 0x20_0000
    && reply.payload.Some? && CarriesResult(reply.payload.value, r)
  }

  /** There is no valid response: the call timed out or failed, or the response is unusable. */
  ghost predicate Fails(reply: DockerReply) {
    match reply
    case CallTimedOut => true
    case TransportFailed => true
    case Exited(code, size, payload) =>
      code != 0 || size > 0x20_0000 || payload.None? || forall r: CellResult :: !CarriesResult(payload.value, r)
  }

  /** A valid response is returned as it is, and invalidates the session exactly if it says timed out.
      Any other end of the call is an error with one output and invalidates the session; it counts as a
      timeout exactly if the call timed out. */
  lemma ExecCellExactly(reply: DockerReply)
    ensures Fails(reply) <==> forall r: CellResult :: !Responds(reply, r)
    ensures forall r: CellResult | Responds(reply, r) :: ExecCell(reply) == r.(sessionInvalidated := r.timedOut)
    ensures Fails(reply) ==>
              var ename := if reply.CallTimedOut? then "ExecutionTimeout" else "KernelTransportError";
              ExecCell(reply)
              == CellResult(false, [ErrorOutput(Lit(ename), [], [])], 0, reply.CallTimedOut?, false, true)
  {
    forall r: CellResult
      ensures reply.Exited? && reply.payload.Some? ==>
                (DecodeResult(reply.payload.value) == Ok(r) <==> CarriesResult(reply.payload.value, r))
    {
      if reply.Exited? && reply.payload.Some? { DecodeResultExactly(reply.payload.value, r); }
    }
    FailsExactly(reply);
  }

  lemma FailsExactly(reply: DockerReply)
    ensures Fails(reply) <==> forall r: CellResult :: !Responds(reply, r)
  {
    if Fails(reply) {
      forall r: CellResult ensures !Responds(reply, r) {
        assert reply.Exited? && reply.payload.Some? && reply.code == 0 && reply.size <= 0x20_0000 ==>
            !CarriesResult(reply.payload.value, r);
      }
    } else {
      var r: CellResult :| CarriesResult(reply.payload.value, r);
      assert Responds(reply, r);
    }
  }

  /** A result is a timeout exactly if the call timed out or a valid response says so. */
  lemma TimedOutCells(reply: DockerReply)
    ensures ExecCell(reply).timedOut
       <==> reply.CallTimedOut? || exists r: CellResult :: Responds(reply, r) && r.timedOut
  {
    ExecCellExactly(reply);
  }

  /** The end of a cell's call leaves its session dead if there is no valid response, or if the response
      says timed out, and alive otherwise. */
  lemma CellEnds(s: State, t: TaskId, reply: DockerReply, sid: Sid)
    requires Inv(s) && Enabled(s, Run(t, Replies(reply))) && s.tasks[t].pc == CellRunning(sid)
    ensures var s' := Step(s, Run(t, Replies(reply)));
            && (Fails(reply) ==> Dead(s', sid))
            && (forall r: CellResult | Responds(reply, r) :: if r.timedOut then Dead(s', sid) else Alive(s', sid))
            && s'.tasks[t].pc == if Dead(s', sid) then CellInvalidating(sid, false) else CellReturning(sid, false)
  {
    assert PcFacts(s, s.tasks[t].pc);
    ExecCellExactly(reply);
    Ending(s, t, reply, sid);
  }

  lemma Ending(s: State, t: TaskId, reply: DockerReply, sid: Sid)
    requires Alive(s, sid) && Enabled(s, Run(t, Replies(reply))) && s.tasks[t].pc == CellRunning(sid)
    ensures var s' := Step(s, Run(t, Replies(reply)));
            if ExecCell(reply).sessionInvalidated
            then Dead(s', sid) && s'.tasks[t].pc == CellInvalidating(sid, false)
            else Alive(s', sid) && s'.tasks[t].pc == CellReturning(sid, false)
  {
  }
}
