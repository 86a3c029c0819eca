/** What the two ends of a CFDP transaction share: status and condition codes, the PDUs as
    their decoded contents, the file store, and the configuration of a channel. */
module Cfdp {
  import opened Bytes
  import opened Wrappers

  // Transaction status codes; 0 to 15 are the CFDP condition codes themselves.
  const NO_ERROR := 0
  const POS_ACK_LIMIT_REACHED := 1
  const FILESTORE_REJECTION := 4
  const FILE_CHECKSUM_FAILURE := 5
  const FILE_SIZE_ERROR := 6
  const NAK_LIMIT_REACHED := 7
  const INACTIVITY_DETECTED := 8
  const INVALID_FILE_STRUCTURE := 9
  const CANCEL_REQUEST_RECEIVED := 15
  const ACK_LIMIT_NO_FIN := 17
  const ACK_LIMIT_NO_EOF := 18
  const EARLY_FIN := 21
  const READ_FAILURE := 22

  // Delivery codes and file statuses of a FIN.
  const COMPLETE := 0
  const INCOMPLETE := 1
  const DC_INVALID := 2
  const DISCARDED := 0
  const DISCARDED_FILESTORE := 1
  const RETAINED := 2
  const UNREPORTED := 3
  const FS_INVALID := 4

  // File directive codes an ACK can name.
  const DIR_EOF := 4
  const DIR_FIN := 5

  const NAK_MAX_SEGMENTS := 58

  /** CF_TxnStatus_IsError. */
  predicate IsError(stat: int) { stat > NO_ERROR }

  /** CF_CFDP_SetTxnStatus: the first error sticks. */
  function SetStatus(stat: int, update: int): int {
    if IsError(stat) then stat else update
  }

  /** CF_TxnStatus_To_ConditionCode: the four bits a FIN or EOF carries. */
  function ConditionCode(stat: int): (cc: nat)
    ensures cc < 16 && (cc == NO_ERROR <==> !IsError(stat))
  {
    if !IsError(stat) then NO_ERROR
    else if stat <= 11 || stat == 14 || stat == 15 then stat
    else if stat == ACK_LIMIT_NO_FIN || stat == ACK_LIMIT_NO_EOF then INACTIVITY_DETECTED
    else CANCEL_REQUEST_RECEIVED
  }

  datatype Segment = Segment(start: nat, end: nat)

  /** PDUs as decoded.  A FIN has one bit for the delivery code and two for the file status;
      Misnamed is metadata with a file name too long for the receiver. */
  datatype Pdu =
    | Md(size: nat, closeReq: bool)
    | Misnamed(size: nat, closeReq: bool)
    | Fd(offset: nat, data: Bytes)
    | Eof(cc: nat, crc: nat, size: nat)
    | Fin(cc: nat, dc: nat, fs: nat)
    | Ack(directive: nat)
    | Nak(segments: seq<Segment>)

  /** The settings of one channel; timers in ticks. */
  datatype Config = Config(
    ackLimit: nat, ackTicks: nat, inactTicks: nat,
    maxChunks: nat, crcBytesPerWakeup: nat, fileChunkSize: nat,
    moveDir: bool, failDir: bool)
  {
    predicate Valid() { maxChunks > 0 }
  }

  /** CF_CFDP_CheckAckNakCount counts up just when the counter is under the limit. */
  predicate UnderLimit(cfg: Config, counter: nat) { counter < cfg.ackLimit }

  // ------------------------------------------------------------------ file store

  /** One open file with its position, and the place a finished file is moved to. */
  datatype Store = Store(temp: Bytes, pos: nat, dst: Option<Bytes>)

  /** The file after data is written at pos; a hole reads as zeros. */
  function WriteAt(file: Bytes, pos: nat, data: Bytes): Bytes {
    if data == [] then file
    else
      var base := if |file| < pos then file + Zeros(pos - |file|) else file;
      base[..pos] + data + (if pos + |data| < |base| then base[pos + |data|..] else [])
  }

  lemma WriteAtFacts(file: Bytes, pos: nat, data: Bytes)
    ensures var w := WriteAt(file, pos, data);
            && |w| == (if data == [] || pos + |data| < |file| then |file| else pos + |data|)
            && |file| <= |w|
            && (forall x :: pos <= x < pos + |data| ==> w[x] == data[x - pos])
            && (forall x :: 0 <= x < |file| && !(pos <= x < pos + |data|) ==> w[x] == file[x])
  {}

  function Min(a: nat, b: nat): nat { if a < b then a else b }
}
