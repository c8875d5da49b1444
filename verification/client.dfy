/**
 * The part of the Slack API client the handler uses: the generic
 * `CallMethod`. The network is not modelled; a call is recorded, and the
 * API's answers are an input: `api(k)` holds when the k-th call of the
 * delivery is answered with an error.
 */
module SlackClient {
  import opened Model

  /** One outbound API call: the method name and its parameter map. */
  datatype Call = Call(methodName: string, params: map<string, Json>)

  /**
   * Sends one call: appends its record to `sent` and reports whether the
   * API answered this call, the `|sent|`-th, with an error.
   */
  method CallMethod(sent: seq<Call>, methodName: string, params: map<string, Json>, api: nat -> bool)
    returns (sent': seq<Call>, failed: bool)
    ensures sent' == sent + [Call(methodName, params)]
    ensures failed == api(|sent|)
  {
    sent' := sent + [Call(methodName, params)];
    failed := api(|sent|);
  }
}
