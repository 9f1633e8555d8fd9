/** The abstract shell: queued replies, and a log of every call. */
module PowerShell {
  import opened Prelude
  import opened Report
  import opened Text

  /** `parsed` is what `parse_json` makes of `stdout`; parsing itself is not modelled. */
  datatype Output = Output(stdout: string, parsed: Value, stderr: string, exitCode: int)
  {
    predicate Succeeded() { exitCode == 0 }
  }

  datatype PowerShellError =
    | Spawn(binary: string, source: string)
    | TempScript(source: string)
    | NonZeroExit(exitCode: int, stderr: string)

  function IntText(n: int): string {
    if n < 0 then "-" + Decimal(-n) else Decimal(n)
  }

  function ShellErrorText(e: PowerShellError): string {
    match e
    case Spawn(binary, source) => "failed to spawn '" + binary + "': " + source
    case TempScript(source) => "failed to write temp script file: " + source
    case NonZeroExit(code, stderr) => "script exited with code " + IntText(code) + ": " + stderr
  }

  type Reply = Result<Output, PowerShellError>

  /** One run of an embedded script; the script is named by its command. */
  datatype Call = Call(script: string, args: seq<string>)

  const EMPTY_SUCCESS: Reply := Ok(Output("", Null, "", 0))

  function NextReply(responses: seq<Reply>): Reply {
    if responses == [] then EMPTY_SUCCESS else responses[0]
  }

  function RestReplies(responses: seq<Reply>): seq<Reply> {
    if responses == [] then [] else responses[1..]
  }

  /** What is left of the queued replies after n runs. */
  function RepliesAfter(responses: seq<Reply>, n: nat): seq<Reply> {
    if n == 0 then responses else RestReplies(RepliesAfter(responses, n - 1))
  }

  /** First in, first out; a drained queue answers with an empty success. */
  lemma QueueLaw(first: Reply, rest: seq<Reply>)
    ensures NextReply([first] + rest) == first && RestReplies([first] + rest) == rest
    ensures NextReply([]) == Ok(Output("", Null, "", 0)) && RestReplies([]) == []
  {
  }

  lemma {:induction false} RepliesAfterExactly(responses: seq<Reply>, n: nat)
    ensures RepliesAfter(responses, n) == if n <= |responses| then responses[n..] else []
  {
    if n > 0 { RepliesAfterExactly(responses, n - 1); }
  }

  /** Replies come back in the order they were queued, and a drained queue
      answers with an empty success. */
  class MockPowerShell {
    var responses: seq<Reply>
    var calls: seq<Call>

    constructor ()
      ensures responses == [] && calls == []
    {
      responses, calls := [], [];
    }

    method PushResponse(reply: Reply)
      modifies this`responses
      ensures responses == old(responses) + [reply]
    {
      responses := responses + [reply];
    }

    method Run(script: string, args: seq<string>) returns (reply: Reply)
      modifies this
      ensures calls == old(calls) + [Call(script, args)]
      ensures reply == NextReply(old(responses))
      ensures responses == RestReplies(old(responses))
    {
      calls := calls + [Call(script, args)];
      if responses == [] {
        reply := EMPTY_SUCCESS;
      } else {
        reply := responses[0];
        responses := responses[1..];
      }
    }
  }
}
