/**
 FIX messages as the session layer sees them: the fields that drive sequencing and
 recovery, with everything else kept as an opaque payload.
 */
module Messages {

  datatype Option<+T> = None | Some(value: T)

  /** Sequence numbers start at 1. */
  type SeqNum = n: nat | 1 <= n witness 1

  /** MsgType(35). `App` carries the code of every type without a session handler of its own;
      `Untyped` is a message whose MsgType cannot be read. */
  datatype Kind =
    | Heartbeat | TestRequest | ResendRequest | Reject | SequenceReset | Logout | Logon
    | XmlNonFix | Untyped | App(code: string)

  /** "n" counts as administrative. */
  predicate IsAdmin(k: Kind) { !k.App? && !k.Untyped? }

  datatype Msg = Msg(
    kind: Kind,
    seqNum: Option<nat>,        // MsgSeqNum(34); None when absent or not a number
    possDup: bool,              // PossDupFlag(43)=Y
    gapFill: bool,              // GapFillFlag(123)=Y
    newSeqNo: Option<nat>,      // NewSeqNo(36)
    resetFlag: bool,            // ResetSeqNumFlag(141)=Y
    nextExpected: Option<nat>,  // NextExpectedMsgSeqNum(789)
    beginSeqNo: Option<nat>,    // BeginSeqNo(7)
    endSeqNo: Option<nat>,      // EndSeqNo(16)
    heartBtInt: Option<nat>,    // HeartBtInt(108)
    parses: bool,               // whether its stored bytes parse again
    embedsSkip: bool,           // whether a data field holds <SOH>35=A or <SOH>35=2
    payload: string)

  function Plain(kind: Kind): Msg {
    Msg(kind, None, false, false, None, false, None, None, None, None, true, false, "")
  }

  /** The test applied to queued messages looks for "35=A" and "35=2" as prefixes of a field, so it
      also catches application types such as AE, and data that embeds such a field. */
  predicate SkippedWhenQueued(m: Msg) {
    || m.kind.Logon? || m.kind.ResendRequest? || m.embedsSkip
    || (m.kind.App? && m.kind.code != "" && (m.kind.code[0] == 'A' || m.kind.code[0] == '2'))
  }
}
