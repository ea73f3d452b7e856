/**
  The middle part of the triple buffer: one string behind a lock, and a flag that says whether the
  last write was already read. The writer copies into the string; the reader swaps with it.
 */
module Mailboxes {
  /** Which thread holds the lock. */
  datatype Lock = Free | HeldByWriter | HeldByReader

  datatype Mailbox = Mailbox(text: string, wasRead: bool, lock: Lock)

  const NEW_MAILBOX := Mailbox("", false, Free)

  // The atomic steps both operations are made of. The reader looks at `wasRead` without the lock.

  function PutText(m: Mailbox, s: string): Mailbox
    requires m.lock.Free?
  {
    m.(text := s, lock := HeldByWriter)
  }

  function MarkUnread(m: Mailbox): Mailbox
    requires m.lock.HeldByWriter?
  {
    m.(wasRead := false, lock := Free)
  }

  function SwapText(m: Mailbox, target: string): (Mailbox, string)
    requires m.lock.Free?
  {
    (m.(text := target, lock := HeldByReader), m.text)
  }

  function MarkRead(m: Mailbox): Mailbox
    requires m.lock.HeldByReader?
  {
    m.(wasRead := true, lock := Free)
  }

  /** A write from lock to unlock. */
  function Write(m: Mailbox, s: string): Mailbox
    requires m.lock.Free?
  {
    MarkUnread(PutText(m, s))
  }

  /** A read that nobody interferes with: the mailbox, the target, and whether anything was read. */
  function ReadTo(m: Mailbox, target: string): (Mailbox, string, bool)
    requires m.lock.Free?
  {
    if m.wasRead then (m, target, false)
    else var (m', target') := SwapText(m, target); (MarkRead(m'), target', true)
  }

  /** Several writes before a read: only the last text is seen, once; a second read gets nothing. */
  lemma LastWriteIsReadOnce(m: Mailbox, older: string, newer: string, target: string)
    requires m.lock.Free?
    ensures var (m1, got, changed) := ReadTo(Write(Write(m, older), newer), target);
            && changed && got == newer
            && m1.text == target && m1.lock.Free?
            && forall target': string :: ReadTo(m1, target') == (m1, target', false)
  {
  }

  class TripleBuffer {
    const serial: nat
    var buf: string
    var wasRead: bool

    function State(): Mailbox
      reads this
    {
      Mailbox(buf, wasRead, Free)
    }

    constructor (serial: nat)
      ensures this.serial == serial && State() == NEW_MAILBOX
    {
      this.serial := serial;
      buf := "";
      wasRead := false;
    }

    method WriteText(s: string)
      modifies this
      ensures State() == Write(old(State()), s)
    {
      buf := s;
      wasRead := false;
    }

    method ReadText(target: string) returns (newTarget: string, changed: bool)
      modifies this
      ensures (State(), newTarget, changed) == ReadTo(old(State()), target)
    {
      if wasRead {
        return target, false;
      }
      newTarget := buf;
      buf := target;
      wasRead := true;
      changed := true;
    }
  }
}
