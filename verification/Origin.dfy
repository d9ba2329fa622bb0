/** What one sender puts on the wire for one payload
    (crates/orbit-transport/src/session.rs lines 145-157 and 270-279). */
module Origin {
  import opened XorKernel
  import opened Soliton
  import opened FountainCode
  import opened DecoderSpec
  import opened Wire
  import opened Encoder
  import opened Codec
  import Precode

  datatype Origin = Origin(sessionId: nat, filename: Block, payload: Block, size: nat, checksum: nat, rand: Randomness) {
    function K(): nat
      requires size > 0
    {
      SourceCount(|payload|, size)
    }

    ghost predicate Valid() {
      size > 0 && Lawful(rand) && K() < Precode.U32_LIMIT
    }

    ghost function MetaMessage(): Message
      requires Valid()
    {
      Meta(sessionId, filename, |payload|, size, K(), checksum)
    }

    ghost function Data(esi: nat): (b: Block)
      requires Valid()
      ensures |b| == size
    {
      Encoded(PayloadCode(payload, size, rand), PayloadBlocks(payload, size, rand), esi, size)
    }

    /** The message is one this sender makes: its Meta, or the symbol of the ESI it names. */
    ghost predicate Made(m: Message)
      requires Valid()
    {
      match m
      case Meta(_, _, _, _, _, _) => m == MetaMessage()
      case Symbol(id, esi, data) => id == sessionId && data == Data(esi)
      case _ => false
    }
  }
}
