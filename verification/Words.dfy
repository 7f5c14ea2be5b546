/** Machine words, and the bit fields the kernel packs into them. */
module Words {
  const WORD_LIMIT: nat := 0x1_0000_0000

  type Word = w: int | 0 <= w < 0x1_0000_0000
  type Byte = b: int | 0 <= b < 256

  datatype Option<+T> = None | Some(value: T)

  // ---------- L4 thread ids (include/l4/thread.h) ----------

  const NILTHREAD: Word := 0
  const ANYTHREAD: Word := 0xFFFF_FFFF
  const ANYLOCALTHREAD: Word := 0xFFFF_FFB0
  const USER_THREAD_START: nat := 0x40

  function ThreadNo(id: Word): nat {
    id / 0x4000
  }

  predicate SameThreads(a: Word, b: Word) {
    ThreadNo(a) == ThreadNo(b)
  }

  predicate IsLocalId(id: Word) {
    id % 128 == 0
  }

  /** An id that names one thread globally: neither of local form nor a wildcard. */
  predicate IsGlobalName(id: Word) {
    !IsLocalId(id) && id != ANYTHREAD && id != ANYLOCALTHREAD
  }

  // ---------- Message tags and error words (include/l4/ipc.h) ----------

  /** The union L4_msg_tag, which is all that message register 0 is ever read or written as. */
  datatype Tag = Tag(u: nat, t: nat, flags: nat, labelField: nat)

  predicate IsTag(tag: Tag) {
    tag.u < 64 && tag.t < 64 && tag.flags < 16 && tag.labelField < 65536
  }

  /** Sets bit 3 of the flags, the error indicator. */
  function WithErrorFlag(tag: Tag): Tag {
    if tag.flags / 8 % 2 == 1 then tag else tag.(flags := tag.flags + 8)
  }

  datatype IpcError =
    | NoError | Timeout | NonexistentPartner | Canceled | MessageOverflow
    | XferTimeoutInvoker | XferTimeoutPartner | Aborted

  /** The error word of a UTCB: an L4_ipc_error_t with offset 0, whose p tells the receive phase
      from the send phase, or the error number of another system call. */
  datatype ErrorWord = IpcFailure(receiving: bool, code: IpcError) | CallFailure(codeNo: nat)
}
