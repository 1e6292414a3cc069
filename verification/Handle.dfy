/** The 64-bit wire handle: kind in the top byte, then a 24-bit generation, then a 32-bit slot. */
module Handles {
  import opened Prelude

  const GENERATION_MAX: u32 := 0xFF_FFFF

  type u24 = x: int | 0 <= x < 0x100_0000

  /** A handle by its three fields; `ToRaw` and `FromRaw` are the packing and the accessors. */
  datatype Handle = Handle(kind: u8, generation: u24, slot: u32) {
    /** The part of a handle that a table looks at: the kind byte is not checked. */
    function Id(): ObjectId {
      ObjectId(slot, generation)
    }
  }

  datatype ObjectId = ObjectId(slot: nat, generation: nat)

  /** Packs three fields; generation bits above the 24th are discarded. */
  function Pack(kind: u8, generation: u32, slot: u32): Handle {
    Handle(kind, generation % 0x100_0000, slot)
  }

  function ToRaw(h: Handle): u64 {
    h.kind * 0x100_0000_0000_0000 + h.generation * 0x1_0000_0000 + h.slot
  }

  /** The three accessors: top byte, middle 24 bits, low word. */
  function FromRaw(raw: u64): Handle {
    Handle(raw / 0x100_0000_0000_0000, raw / 0x1_0000_0000 % 0x100_0000, raw % 0x1_0000_0000)
  }

  /** On the wire the kind is the top byte, the generation the 24 bits below it, the slot the low word. */
  lemma {:induction false} RawFields(h: Handle)
    ensures ToRaw(h) / 0x100_0000_0000_0000 == h.kind
    ensures ToRaw(h) / 0x1_0000_0000 % 0x100_0000 == h.generation
    ensures ToRaw(h) % 0x1_0000_0000 == h.slot
  {
    RawBijection(h, 0);
  }

  /** Packing is a bijection between the field triples and the raw values. */
  lemma RawBijection(h: Handle, raw: u64)
    ensures FromRaw(ToRaw(h)) == h
    ensures ToRaw(FromRaw(raw)) == raw
  {
    var high := h.kind * 0x100_0000 + h.generation;
    assert ToRaw(h) == high * 0x1_0000_0000 + h.slot;
    assert ToRaw(h) / 0x1_0000_0000 == high;
    var q := raw / 0x1_0000_0000;
    assert raw / 0x100_0000_0000_0000 == q / 0x100_0000;
  }

  /**
   What a packed raw value reads back as: in-range generations survive, over-wide ones are reduced
   modulo 2^24 without touching the kind or the slot.
   */
  lemma PackedFields(kind: u8, generation: u32, slot: u32)
    ensures FromRaw(ToRaw(Pack(kind, generation, slot))) == Handle(kind, generation % 0x100_0000, slot)
    ensures generation % 0x100_0000 == generation <==> generation <= GENERATION_MAX
  {
    var h := Pack(kind, generation, slot);
    assert FromRaw(ToRaw(h)) == h by {
      RawBijection(h, 0);
    }
  }
}
