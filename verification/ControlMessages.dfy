/** The control messages a hub sends to its bridges (`packages/hub-daemon/src/control-bus.ts`),
    with the parameters the bridge looks at. */
module ControlMessages {
  import opened Wrappers

  datatype Kind = HandshakeAck | ToolsChanged | ContractUpdated | InvokeAction | MeetingSaid

  /** A parameter as it arrives: the bridge checks its type before using it. */
  datatype Value = Undefined | Text(text: string) | Number(number: real) | Other

  datatype Message = Message(
    kind: Kind, seqNo: nat, session: Value, participant: Value, handler: Value,
    messageId: Value, since: Value, prompt: Value, count: Option<nat>, rest: string)

  function MaxSeq(messages: seq<Message>): (max: nat)
    ensures forall k :: 0 <= k < |messages| ==> messages[k].seqNo <= max
    ensures max == 0 || exists k :: 0 <= k < |messages| && messages[k].seqNo == max
  {
    if messages == [] then 0
    else
      var front := MaxSeq(messages[..|messages| - 1]);
      var last := messages[|messages| - 1].seqNo;
      if last > front then last else front
  }
}
