/** `execute_sql_with_supabase`: one script sent to the database's `sql` remote
    procedure, its outcome reported as a `(success, message)` pair. The remote
    call itself is an oracle: the database's answer to a query, which may depend
    on the queries this run has already sent to it. */
module Execution {
  import opened Wrappers

  /** What the remote call did: returned, or raised an exception with this text. */
  datatype Outcome = Returned | Raised(error: string)

  /** The `(success, message)` pair `execute_sql_with_supabase` returns. */
  datatype ExecResult = ExecResult(success: bool, message: string)

  const SuccessMark := "\U{2705} "
  const SuccessTail := " executed successfully"
  const FailureHead := "\U{274C} Error in "
  const FailureSeparator := ": "

  /** `f"\u2705 {script_name} executed successfully"` */
  function SuccessMessage(name: string): string {
    SuccessMark + name + SuccessTail
  }

  /** `f"\u274c Error in {script_name}: {str(e)}"` */
  function FailureMessage(name: string, error: string): string {
    FailureHead + name + FailureSeparator + error
  }

  /** Reads a message back: the script name if it is a success message, else None. */
  function SucceededScript(message: string): Option<string> {
    var lead, tail := |SuccessMark|, |SuccessTail|;
    if |message| >= lead + tail && message[..lead] == SuccessMark && message[|message| - tail..] == SuccessTail
    then Some(message[lead..|message| - tail])
    else None
  }

  /** The result built from the outcome of the remote call for script `name`. */
  function ResultOf(outcome: Outcome, name: string): (r: ExecResult)
    ensures r.success <==> outcome.Returned?
  {
    match outcome
    case Returned => ExecResult(true, SuccessMessage(name))
    case Raised(error) => ExecResult(false, FailureMessage(name, error))
  }

  /** The remote database as one run sees it: its answer to `query` after the
      queries `sent` earlier in the run. */
  type Rpc = (seq<string>, string) -> Outcome

  /** One call of `execute_sql_with_supabase(client, content, name)`, made after the
      queries `sent`: the query is the script's content. */
  function ExecuteSql(rpc: Rpc, sent: seq<string>, content: string, name: string): (r: ExecResult)
    ensures r.success <==> rpc(sent, content).Returned?
  {
    ResultOf(rpc(sent, content), name)
  }

  /** A success message reads back as a success naming its script. */
  lemma SuccessMessageReadable(name: string)
    ensures SucceededScript(SuccessMessage(name)) == Some(name)
  {
    var m := SuccessMessage(name);
    assert m[..|SuccessMark|] == SuccessMark;
    assert m[|m| - |SuccessTail|..] == SuccessTail;
    assert m[|SuccessMark|..|m| - |SuccessTail|] == name;
  }

  /** A failure message never reads as a success; the name sits right after the
      fixed head and the exception text ends it verbatim. */
  lemma FailureMessageShape(name: string, error: string)
    ensures SucceededScript(FailureMessage(name, error)) == None
    ensures var m := FailureMessage(name, error);
      && |m| == |FailureHead| + |name| + |FailureSeparator| + |error|
      && m[..|FailureHead|] == FailureHead
      && m[|FailureHead|..|FailureHead| + |name|] == name
      && m[|FailureHead| + |name|..|FailureHead| + |name| + |FailureSeparator|] == FailureSeparator
      && m[|m| - |error|..] == error
  {
    var m := FailureMessage(name, error);
    assert m[0] == '\U{274C}' != SuccessMark[0];
    assert |m| >= |SuccessMark| ==> m[..|SuccessMark|][0] == m[0];
  }

  /** The message alone tells success from failure and, on success, which script ran. */
  lemma ResultMessageReadable(outcome: Outcome, name: string)
    ensures SucceededScript(ResultOf(outcome, name).message) == if outcome.Returned? then Some(name) else None
  {
    match outcome
    case Returned => SuccessMessageReadable(name);
    case Raised(error) => FailureMessageShape(name, error);
  }
}
