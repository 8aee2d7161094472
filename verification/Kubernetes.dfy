/** The little of the Kubernetes API that the model reads. */
module Kubernetes {

  /** A condition's status; also the readiness of a node. */
  datatype Status = True | False | Unknown

  datatype Condition = Condition(kind: string, status: Status)

  datatype ObjectKey = ObjectKey(namespace: string, name: string)

  /******* Terminal states of a JobSet *******/

  const COMPLETED := "Completed"
  const FAILED := "Failed"
  const SUSPENDED := "Suspended"

  predicate IsTerminal(c: Condition) {
    c.status.True? && c.kind in [COMPLETED, FAILED, SUSPENDED]
  }

  predicate Terminal(conditions: seq<Condition>) {
    exists i :: 0 <= i < |conditions| && IsTerminal(conditions[i])
  }

  /** The kind of the first terminal condition, or "" if there is none. */
  function TerminalState(conditions: seq<Condition>): (state: string)
    ensures state != "" <==> Terminal(conditions)
  {
    if conditions == [] then ""
    else if IsTerminal(conditions[0]) then conditions[0].kind
    else
      assert forall i :: 0 < i < |conditions| ==> conditions[i] == conditions[1..][i - 1];
      TerminalState(conditions[1..])
  }

  /** The three kinds, and what makes a condition of one of them count. */
  predicate Ends(c: Condition) {
    c.status == True && (c.kind == "Completed" || c.kind == "Failed" || c.kind == "Suspended")
  }

  /** The first condition that ends the JobSet gives the state its very kind. */
  lemma {:induction false} TerminalStateIsFirst(conditions: seq<Condition>, i: nat)
    requires i <= |conditions| && (forall j :: 0 <= j < i ==> !Ends(conditions[j]))
    requires i < |conditions| ==> Ends(conditions[i])
    ensures TerminalState(conditions) == if i < |conditions| then conditions[i].kind else ""
    ensures Terminal(conditions) <==> i < |conditions|
  {
    if i > 0 {
      TerminalStateIsFirst(conditions[1..], i - 1);
    }
  }

  method GetJobSetTerminalState(conditions: seq<Condition>) returns (state: string, terminal: bool)
    ensures state == TerminalState(conditions)
    ensures terminal <==> Terminal(conditions)
  {
    for i := 0 to |conditions|
      invariant TerminalState(conditions) == TerminalState(conditions[i..])
    {
      var c := conditions[i];
      if IsTerminal(c) {
        return c.kind, true;
      }
    }
    return "", false;
  }
}
