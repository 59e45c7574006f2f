/** The attribute words of a stored message (the `attr` and `netattr` fields
    of a message header and of its index record). The bit values are those of
    smbdefs.h, which is not part of this model; the proofs rely only on each
    being a single bit and on the bits being distinct. */
module MsgAttr {
  type Attr = bv16
  type NetAttr = bv32

  const MSG_PRIVATE: Attr := 1
  const MSG_READ: Attr := 2
  const MSG_PERMANENT: Attr := 4
  const MSG_LOCKED: Attr := 8
  const MSG_DELETE: Attr := 16
  const MSG_ANONYMOUS: Attr := 32
  const MSG_KILLREAD: Attr := 64
  const MSG_MODERATED: Attr := 128
  const MSG_VALIDATED: Attr := 256
  const MSG_REPLIED: Attr := 512
  const MSG_NOREPLY: Attr := 1024

  const MSG_LOCAL: NetAttr := 1
  const MSG_INTRANSIT: NetAttr := 2
  const MSG_SENT: NetAttr := 4

  predicate Has(a: Attr, bit: Attr) { a & bit != 0 }

  predicate HasNet(a: NetAttr, bit: NetAttr) { a & bit != 0 }

  /** `a |= bit`: the bit is set and no other bit changes. */
  function Set(a: Attr, bit: Attr): (r: Attr)
    ensures Has(r, bit) <==> bit != 0
    ensures (r ^ a) & !bit == 0
  {
    a | bit
  }

  function SetNet(a: NetAttr, bit: NetAttr): (r: NetAttr)
    ensures HasNet(r, bit) <==> bit != 0
    ensures (r ^ a) & !bit == 0
  {
    a | bit
  }

  /** `a &= ~bit`: the bit is clear and no other bit changes. */
  function ClearNet(a: NetAttr, bit: NetAttr): (r: NetAttr)
    ensures !HasNet(r, bit)
    ensures (r ^ a) & !bit == 0
  {
    a & !bit
  }

  /** Setting a bit that was clear and clearing it again restores the word. */
  lemma SetThenClear(a: NetAttr, bit: NetAttr)
    requires !HasNet(a, bit)
    ensures ClearNet(SetNet(a, bit), bit) == a
  {
  }
}
