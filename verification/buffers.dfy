/** The two offscreen capture buffers every variant keeps, modelled as two
    storage slots plus two tags: `cur` names the slot the next capture is
    written into (`new_data`, `front_buffer`) and `prev` the slot holding the
    capture the device currently shows (`old_data`, `back_buffer`).  The C
    code only ever moves pointers, never contents; a pointer assignment is a
    change of tag here.  When both tags name one slot the buffers are
    aliased: a capture then overwrites the "previous" frame as well. */
module Buffers {

  datatype Slot = A | B

  datatype Pair<T> = Pair(a: seq<T>, b: seq<T>, prev: Slot, cur: Slot)
  {
    /** Contents of one storage slot. */
    function Get(s: Slot): seq<T>
    {
      if s == A then a else b
    }

    /** What the `old_data` / `back_buffer` pointer points at. */
    function Previous(): seq<T>
    {
      Get(prev)
    }

    /** What the `new_data` / `front_buffer` pointer points at. */
    function Current(): seq<T>
    {
      Get(cur)
    }

    predicate Aliased()
    {
      prev == cur
    }

    /** A capture written through the current pointer.  The previous frame
        survives exactly when the two pointers differ. */
    function Fill(data: seq<T>): (p: Pair<T>)
      ensures p.Current() == data
      ensures p.prev == prev && p.cur == cur
      ensures !Aliased() ==> p.Previous() == Previous()
      ensures Aliased() ==> p.Previous() == data
    {
      if cur == A then this.(a := data) else this.(b := data)
    }

    /** `tmp = old; old = new; new = tmp`: the pointers trade places and no
        element is copied. */
    function Exchange(): (p: Pair<T>)
      ensures p.Previous() == Current() && p.Current() == Previous()
      ensures p.a == a && p.b == b
      ensures p.Aliased() <==> Aliased()
    {
      this.(prev := cur, cur := prev)
    }

    /** `back_buffer = front_buffer`: both pointers now name the current
        slot, and nothing points at the other slot any more. */
    function Alias(): (p: Pair<T>)
      ensures p.Aliased()
      ensures p.Previous() == Current() && p.Current() == Current()
      ensures p.a == a && p.b == b
    {
      this.(prev := cur)
    }
  }

  /** Exchanging twice restores the original pair. */
  lemma ExchangeInvolution<T>(p: Pair<T>)
    ensures p.Exchange().Exchange() == p
  {
  }

  /** A fill followed by an exchange leaves the capture as the previous frame
      and the old previous frame as the next capture target, so with distinct
      pointers the two frames never share storage. */
  lemma FillThenExchange<T>(p: Pair<T>, data: seq<T>)
    requires !p.Aliased()
    ensures p.Fill(data).Exchange().Previous() == data
    ensures p.Fill(data).Exchange().Current() == p.Previous()
    ensures !p.Fill(data).Exchange().Aliased()
  {
  }

  /** Once aliased, a fill writes both views at once and another alias
      changes nothing: the pair stays aliased forever and the previous view
      always equals the last capture. */
  lemma AliasAbsorbing<T>(p: Pair<T>, data: seq<T>)
    requires p.Aliased()
    ensures p.Fill(data).Alias() == p.Fill(data)
    ensures p.Fill(data).Previous() == p.Fill(data).Current() == data
  {
  }
}
