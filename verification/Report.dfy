/** Progress states and frames, and the channel that carries them. */
module Report {
  import opened Prelude

  /** JSON, as results carry it. */
  datatype Value =
    | Null
    | Str(text: string)
    | Num(n: int)
    | List(items: seq<Value>)
    | Obj(fields: map<string, Value>)

  datatype OpStatus = Pending | Running | Done | Error | Cancelled

  datatype OpRunState = OpRunState(
    status: OpStatus,
    percent: Option<real>,
    phase: Option<string>,
    detail: Option<string>,
    result: Option<Value>)

  function RunningState(phase: string, percent: real): OpRunState {
    OpRunState(Running, Some(percent), Some(phase), None, None)
  }

  function DoneState(result: Value): OpRunState {
    OpRunState(Done, Some(100.0), None, None, Some(result))
  }

  function ErrorState(detail: string): OpRunState {
    OpRunState(Error, None, None, Some(detail), None)
  }

  predicate Terminal(state: OpRunState) {
    state.status == Done || state.status == Error
  }

  /** One progress frame, tagged with the job it belongs to. */
  datatype OutboundProgress = OutboundProgress(jobId: string, state: OpRunState)

  function Tagged(jobId: string, states: seq<OpRunState>): (frames: seq<OutboundProgress>)
    ensures |frames| == |states|
  {
    seq(|states|, i requires 0 <= i < |states| => OutboundProgress(jobId, states[i]))
  }

  /** The unbounded channel between workers and the connection loop. */
  class Channel {
    var frames: seq<OutboundProgress>

    constructor ()
      ensures frames == []
    {
      frames := [];
    }

    method Send(frame: OutboundProgress)
      modifies this
      ensures frames == old(frames) + [frame]
    {
      frames := frames + [frame];
    }
  }

  /** The sink a handler reports to: it tags each state with the job id. */
  class TaggedProgressSink {
    const jobId: string
    const sender: Channel

    constructor (jobId: string, sender: Channel)
      ensures this.jobId == jobId && this.sender == sender
    {
      this.jobId := jobId;
      this.sender := sender;
    }

    method Report(state: OpRunState)
      modifies sender
      ensures sender.frames == old(sender.frames) + Tagged(jobId, [state])
    {
      sender.Send(OutboundProgress(jobId, state));
      assert Tagged(jobId, [state]) == [OutboundProgress(jobId, state)];
    }
  }
}
