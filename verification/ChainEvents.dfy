/** One stored audit event. The two chain verifiers read its chain fields; everything else that the
    signature covers (prompt, response and decision fields) is one content text to them. */
module ChainEvents {
  import opened Wrappers

  /** The JSON value under `seq_no`. A JSON boolean passes Python's `isinstance(v, int)`
      and then behaves as 0 or 1. */
  datatype SeqNo = Missing | Whole(n: int) | Flag(b: bool) | NotANumber

  datatype Event = Event(
    session: Option<string>,
    seqNo: SeqNo,
    timestamp: Option<real>,
    prevSig: Option<string>,
    sdkSig: Option<string>,
    format: Option<int>,
    content: string)

  predicate IsInt(s: SeqNo) {
    s.Whole? || s.Flag?
  }

  /** `_seq`: the sequence number, 0 when there is none. */
  function Seq(e: Event): int {
    match e.seqNo
    case Whole(n) => n
    case Flag(b) => if b then 1 else 0
    case _ => 0
  }

  /** `_ts`: the timestamp, 0 when there is none. */
  function Ts(e: Event): real {
    GetOr(e.timestamp, 0.0)
  }
}
