/**
 Volume identifiers packed into bit fields (DDCore/src/IDDescriptor.cpp,
 DDCore/src/segmentations/BitFieldCoder.cpp).
 */
module IDDescriptor {
  import opened Wrappers
  import opened BitWords

  /** `BitFieldElement`; a signed field is declared with a negative width. */
  datatype Element = Element(name: string, offset: nat, width: nat, isSigned: bool) {
    /** What the constructor admits, without the width 64 whose shift is undefined; no bit is not signed. */
    predicate Valid() {
      offset < SIZE && width < SIZE && offset + width <= SIZE && (isSigned ==> width >= 1)
    }

    function Mask(): Word
      requires Valid()
    {
      Shl(Bits(Pow2(width) - 1, SIZE), offset)
    }

    /** The bits of the field. */
    function Slot(id: Word): (r: seq<bool>)
      requires Valid()
      ensures |r| == width && forall i :: 0 <= i < width ==> r[i] == id[offset + i]
    {
      id[offset..offset + width]
    }

    /** The value of the field in a word: masked, shifted down and sign-extended. */
    function Value(id: Word): int
      requires Valid()
    {
      var field := Shr(And(id, Mask()), offset);
      if isSigned && field[width - 1] then Nat(field) - Pow2(width) else Nat(field)
    }

    /** `IDDescriptor::encode` for one field; the value is taken into an unsigned word first. */
    function Encode(value: int): Word
      requires Valid()
    {
      And(Shl(Bits(Value(Shl(Bits(value, SIZE), offset)), SIZE), offset), Mask())
    }

    predicate Represents(value: int) {
      if isSigned then width >= 1 && value + Pow2(width - 1) >= 0 && value < Pow2(width - 1)
      else 0 <= value < Pow2(width)
    }

    predicate Covers(bit: nat) {
      offset <= bit < offset + width
    }
  }

  // One field.

  lemma {:induction false} OnesBelow(k: nat, n: nat)
    requires k <= n
    ensures Bits(Pow2(k) - 1, n) == seq(n, i => i < k)
    decreases n
  {
    if n > 0 {
      if k > 0 {
        OnesBelow(k - 1, n - 1);
        assert (Pow2(k) - 1) / 2 == Pow2(k - 1) - 1;
      } else {
        OnesBelow(0, n - 1);
      }
    }
  }

  lemma MaskIs(f: Element)
    requires f.Valid()
    ensures forall i :: 0 <= i < SIZE ==> f.Mask()[i] == f.Covers(i)
  {
    OnesBelow(f.width, SIZE);
  }

  lemma {:induction false} NatPadded(b: seq<bool>, k: nat)
    ensures Nat(b + Zeros(k)) == Nat(b)
    decreases |b| + k
  {
    if b != [] {
      NatPadded(b[1..], k);
      assert (b + Zeros(k))[1..] == b[1..] + Zeros(k);
    } else if k > 0 {
      NatPadded([], k - 1);
      assert ([] + Zeros(k))[1..] == [] + Zeros(k - 1);
    } else {
      assert b + Zeros(k) == [];
    }
  }

  lemma FieldIs(f: Element, id: Word)
    requires f.Valid()
    ensures Shr(And(id, f.Mask()), f.offset) == f.Slot(id) + Zeros(SIZE - f.width)
  {
    MaskIs(f);
    var field := Shr(And(id, f.Mask()), f.offset);
    forall i | 0 <= i < SIZE
      ensures field[i] == (f.Slot(id) + Zeros(SIZE - f.width))[i]
    {
    }
  }

  /** The value depends on the bits of the field only. */
  lemma ValueIs(f: Element, id: Word)
    requires f.Valid()
    ensures f.Value(id) == Decoded(f.Slot(id), f.isSigned)
  {
    FieldIs(f, id);
    NatPadded(f.Slot(id), SIZE - f.width);
  }

  lemma ShiftedSlice(a: Word, k: nat, w: nat)
    requires k + w <= SIZE
    ensures Shl(a, k)[k..k + w] == a[..w]
  {
  }

  lemma MaskedSlice(a: Word, f: Element)
    requires f.Valid()
    ensures var r := And(a, f.Mask());
            && f.Slot(r) == f.Slot(a)
            && forall i :: 0 <= i < SIZE && !f.Covers(i) ==> !r[i]
  {
    MaskIs(f);
  }

  lemma ValueBits(f: Element, id: Word)
    requires f.Valid()
    ensures Bits(f.Value(id), f.width) == f.Slot(id)
  {
    ValueIs(f, id);
    BitsOfDecoded(f.Slot(id), f.isSigned);
  }

  /** What goes through the field on the way into the word keeps the lowest bits of the value. */
  lemma BitsOfValue(f: Element, value: int)
    requires f.Valid()
    ensures Bits(f.Value(Shl(Bits(value, SIZE), f.offset)), f.width) == Bits(value, f.width)
  {
    ValueBits(f, Shl(Bits(value, SIZE), f.offset));
    ShiftedSlice(Bits(value, SIZE), f.offset, f.width);
    BitsPrefix(value, SIZE, f.width);
  }

  /** Encoding puts the lowest bits of the value into the field and nothing anywhere else. */
  lemma EncodeIs(f: Element, value: int)
    requires f.Valid()
    ensures var r := f.Encode(value);
            && f.Slot(r) == Bits(value, f.width)
            && forall i :: 0 <= i < SIZE && !f.Covers(i) ==> !r[i]
  {
    var v := f.Value(Shl(Bits(value, SIZE), f.offset));
    BitsOfValue(f, value);
    MaskedSlice(Shl(Bits(v, SIZE), f.offset), f);
    ShiftedSlice(Bits(v, SIZE), f.offset, f.width);
    BitsPrefix(v, SIZE, f.width);
  }

  /** Whatever the bits of the field are, its value is in the range of the field. */
  lemma ValueInRange(f: Element, id: Word)
    requires f.Valid()
    ensures f.Represents(f.Value(id))
  {
    ValueIs(f, id);
    if f.width > 0 {
      HighBit(f.Slot(id));
    }
  }

  /** A word with the lowest bits of a value in the field decodes to it exactly if it is in range. */
  lemma DecodesTo(f: Element, id: Word, value: int)
    requires f.Valid() && f.Slot(id) == Bits(value, f.width)
    ensures f.Value(id) == value <==> f.Represents(value)
  {
    ValueInRange(f, id);
    if f.Represents(value) {
      ValueIs(f, id);
      DecodedBits(value, f.width, f.isSigned);
    }
  }

  // The fields of a descriptor.

  /** The fields are well-formed, and no bit belongs to two of them. */
  predicate Apart(fields: seq<Element>) {
    && (forall f :: f in fields ==> f.Valid())
    && forall i, j :: 0 <= i < j < |fields| ==> NoBitShared(fields[i], fields[j])
  }

  predicate NoBitShared(f: Element, g: Element) {
    f.width == 0 || g.width == 0 || f.offset + f.width <= g.offset || g.offset + g.width <= f.offset
  }

  /** `field(name)`: the first of that name, with `None` for the exception. */
  function Field(fields: seq<Element>, name: string): (r: Option<Element>)
    ensures r.Some? ==> r.value in fields && r.value.name == name
    ensures r == None ==> forall f :: f in fields ==> f.name != name
  {
    if fields == [] then None
    else if fields[0].name == name then Some(fields[0])
    else Field(fields[1..], name)
  }

  lemma {:induction false} FieldIsFirst(fields: seq<Element>, name: string, i: nat)
    requires i < |fields| && fields[i].name == name && forall j :: 0 <= j < i ==> fields[j].name != name
    ensures Field(fields, name) == Some(fields[i])
    decreases i
  {
    if i > 0 {
      FieldIsFirst(fields[1..], name, i - 1);
    }
  }

  datatype Id = Id(name: string, value: int)

  /** All the names are known to the descriptor. */
  predicate Known(fields: seq<Element>, ids: seq<Id>) {
    forall i :: i in ids ==> Field(fields, i.name).Some?
  }

  /** An identifier has the bit in its field, and in its encoded value. */
  predicate Uses(fields: seq<Element>, i: Id, b: nat) {
    var f := Field(fields, i.name);
    f.Some? && f.value.Covers(b)
  }

  predicate Sets(fields: seq<Element>, i: Id, b: nat)
    requires Apart(fields) && b < SIZE
  {
    var f := Field(fields, i.name);
    f.Some? && f.value.Encode(i.value)[b]
  }

  ghost predicate IsMask(fields: seq<Element>, ids: seq<Id>, mask: Word) {
    forall b :: 0 <= b < SIZE ==> (mask[b] <==> exists i :: i in ids && Uses(fields, i, b))
  }

  lemma MaskMore(fields: seq<Element>, ids: seq<Id>, mask: Word, i: Id)
    requires Apart(fields) && IsMask(fields, ids, mask) && Field(fields, i.name).Some?
    ensures IsMask(fields, ids + [i], Or(mask, Field(fields, i.name).value.Mask()))
  {
    MaskIs(Field(fields, i.name).value);
    var r := Or(mask, Field(fields, i.name).value.Mask());
    forall b | 0 <= b < SIZE ensures r[b] <==> exists j :: j in ids + [i] && Uses(fields, j, b) {
      assert i in ids + [i];
      assert r[b] <==> mask[b] || Uses(fields, i, b);
      if j :| j in ids && Uses(fields, j, b) {
        assert j in ids + [i];
      }
    }
  }

  method GetMask(fields: seq<Element>, ids: seq<Id>) returns (r: Option<Word>)
    requires Apart(fields)
    ensures r.Some? <==> Known(fields, ids)
    ensures r.Some? ==> IsMask(fields, ids, r.value)
  {
    var mask: Word := Zeros(SIZE);
    ghost var done: seq<Id> := [];
    for n := 0 to |ids|
      invariant done == ids[..n] && Known(fields, done) && IsMask(fields, done, mask)
    {
      var fld := Field(fields, ids[n].name);
      if fld == None {
        assert ids[n] in ids;
        return None;
      }
      MaskMore(fields, done, mask, ids[n]);
      mask, done := Or(mask, fld.value.Mask()), done + [ids[n]];
    }
    assert done == ids;
    return Some(mask);
  }

  /** The word encoded from the identifiers: the bits of all of them. */
  ghost predicate EncodedAs(fields: seq<Element>, ids: seq<Id>, id: Word)
    requires Apart(fields)
  {
    forall b :: 0 <= b < SIZE ==> (id[b] <==> exists i :: i in ids && Sets(fields, i, b))
  }

  lemma SetsMore(fields: seq<Element>, ids: seq<Id>, i: Id, b: nat)
    requires Apart(fields) && b < SIZE
    ensures (exists j :: j in ids + [i] && Sets(fields, j, b)) <==>
            (exists j :: j in ids && Sets(fields, j, b)) || Sets(fields, i, b)
  {
    assert i in ids + [i];
    if j :| j in ids && Sets(fields, j, b) {
      assert j in ids + [i];
    }
  }

  lemma EncodedMore(fields: seq<Element>, ids: seq<Id>, id: Word, i: Id)
    requires Apart(fields) && EncodedAs(fields, ids, id) && Field(fields, i.name).Some?
    ensures EncodedAs(fields, ids + [i], Or(id, Field(fields, i.name).value.Encode(i.value)))
  {
    forall b | 0 <= b < SIZE
      ensures Or(id, Field(fields, i.name).value.Encode(i.value))[b] <==> exists j :: j in ids + [i] && Sets(fields, j, b)
    {
      SetsMore(fields, ids, i, b);
    }
  }

  /** One round of the loop below; `None` for a name that is not known. */
  method AddBits(fields: seq<Element>, i: Id, id: Word, ghost ids: seq<Id>) returns (r: Option<Word>)
    requires Apart(fields) && EncodedAs(fields, ids, id)
    ensures r.Some? <==> Field(fields, i.name).Some?
    ensures r.Some? ==> EncodedAs(fields, ids + [i], r.value)
  {
    var fld := Field(fields, i.name);
    if fld == None {
      return None;
    }
    EncodedMore(fields, ids, id, i);
    return Some(Or(id, fld.value.Encode(i.value)));
  }

  method Encode(fields: seq<Element>, ids: seq<Id>) returns (r: Option<Word>)
    requires Apart(fields)
    ensures r.Some? <==> Known(fields, ids)
    ensures r.Some? ==> EncodedAs(fields, ids, r.value)
  {
    r := Some(Zeros(SIZE));
    ghost var done: seq<Id> := [];
    for n := 0 to |ids|
      invariant done == ids[..n] && Known(fields, done)
      invariant r.Some? && EncodedAs(fields, done, r.value)
    {
      r := AddBits(fields, ids[n], r.value, done);
      if r == None {
        assert ids[n] in ids;
        return;
      }
      done := done + [ids[n]];
    }
    assert done == ids;
  }

  lemma SharedBit(fields: seq<Element>, f: Element, g: Element, b: nat)
    requires Apart(fields) && f in fields && g in fields && f.Covers(b) && g.Covers(b)
    ensures f == g
  {
    var i :| 0 <= i < |fields| && fields[i] == f;
    var j :| 0 <= j < |fields| && fields[j] == g;
    assert i < j ==> NoBitShared(f, g);
    assert j < i ==> NoBitShared(g, f);
  }

  /** A bit of a field comes from an identifier given for that field. */
  lemma BitOfField(fields: seq<Element>, f: Element, i: Id, b: nat)
    requires Apart(fields) && f in fields && b < SIZE && f.Covers(b) && Sets(fields, i, b)
    ensures Field(fields, i.name) == Some(f)
  {
    var g := Field(fields, i.name).value;
    EncodeIs(g, i.value);
    assert g.Covers(b);
    SharedBit(fields, f, g, b);
  }

  /**
   Decoding a field of an encoded word gives back the value supplied for it exactly if that is
   in the range of the field, and zero if none was supplied.
   */
  lemma DecodeEncoded(fields: seq<Element>, ids: seq<Id>, id: Word, f: Element)
    requires Apart(fields) && EncodedAs(fields, ids, id) && f in fields && NamesDiffer(ids)
    ensures forall i :: i in ids && Field(fields, i.name) == Some(f) ==>
              (f.Value(id) == i.value <==> f.Represents(i.value))
    ensures (forall i :: i in ids ==> Field(fields, i.name) != Some(f)) ==> f.Value(id) == 0
  {
    forall i | i in ids && Field(fields, i.name) == Some(f) ensures f.Value(id) == i.value <==> f.Represents(i.value) {
      FieldBits(fields, ids, id, f, i);
      DecodesTo(f, id, i.value);
    }
    if forall i :: i in ids ==> Field(fields, i.name) != Some(f) {
      forall b | f.offset <= b < f.offset + f.width ensures !id[b] {
        if i :| i in ids && Sets(fields, i, b) {
          BitOfField(fields, f, i, b);
        }
      }
      assert f.Slot(id) == Zeros(f.width);
      ZeroBits(f.width);
      DecodesTo(f, id, 0);
    }
  }

  lemma FieldBits(fields: seq<Element>, ids: seq<Id>, id: Word, f: Element, i: Id)
    requires Apart(fields) && EncodedAs(fields, ids, id) && f in fields
    requires NamesDiffer(ids) && i in ids && Field(fields, i.name) == Some(f)
    ensures f.Slot(id) == Bits(i.value, f.width)
  {
    EncodeIs(f, i.value);
    var r := f.Encode(i.value);
    forall b | f.offset <= b < f.offset + f.width ensures id[b] == r[b] {
      assert r[b] == Sets(fields, i, b);
      if j :| j in ids && Sets(fields, j, b) {
        BitOfField(fields, f, j, b);
        assert j.name == i.name;
      }
    }
    assert f.Slot(id) == f.Slot(r);
  }

  predicate NamesDiffer(ids: seq<Id>) {
    forall i, j :: i in ids && j in ids && i.name == j.name ==> i == j
  }

  lemma {:induction false} ZeroBits(k: nat)
    ensures Bits(0, k) == Zeros(k)
  {
    if k > 0 {
      ZeroBits(k - 1);
      assert Zeros(k) == [false] + Zeros(k - 1);
    }
  }

  /** An encoded word has no bit outside the mask of its identifiers. */
  lemma EncodedInMask(fields: seq<Element>, ids: seq<Id>, id: Word, mask: Word)
    requires Apart(fields) && EncodedAs(fields, ids, id) && IsMask(fields, ids, mask)
    ensures And(id, mask) == id
  {
    forall b | 0 <= b < SIZE && id[b] ensures mask[b] {
      var i :| i in ids && Sets(fields, i, b);
      EncodeIs(Field(fields, i.name).value, i.value);
      assert Uses(fields, i, b);
    }
  }

  /** `decodeFields`: all fields with their values. */
  method DecodeFields(fields: seq<Element>, vid: Word) returns (flds: seq<(Element, int)>)
    requires Apart(fields)
    ensures |flds| == |fields|
    ensures forall i :: 0 <= i < |fields| ==>
              flds[i].0 == fields[i] && flds[i].1 == fields[i].Value(vid) && fields[i].Represents(flds[i].1)
  {
    flds := [];
    for n := 0 to |fields|
      invariant |flds| == n
      invariant forall i :: 0 <= i < n ==>
                  flds[i].0 == fields[i] && flds[i].1 == fields[i].Value(vid) && fields[i].Represents(flds[i].1)
    {
      assert fields[n] in fields;
      ValueInRange(fields[n], vid);
      flds := flds + [(fields[n], fields[n].Value(vid))];
    }
  }

  ghost predicate Joins(fields: seq<Element>, joined: Word) {
    forall b :: 0 <= b < SIZE ==> (joined[b] <==> exists f :: f in fields && f.Covers(b))
  }

  /** The test for bits in use finds exactly the fields that share a bit with an earlier one. */
  lemma UsedBits(fields: seq<Element>, joined: Word, e: Element)
    requires Apart(fields) && Joins(fields, joined) && e.Valid()
    ensures And(joined, e.Mask()) == Zeros(SIZE) <==> forall f :: f in fields ==> NoBitShared(f, e)
    ensures (forall f :: f in fields ==> NoBitShared(f, e)) ==>
              Apart(fields + [e]) && Joins(fields + [e], Or(joined, e.Mask()))
  {
    MaskIs(e);
    if f :| f in fields && !NoBitShared(f, e) {
      var b := if f.offset < e.offset then e.offset else f.offset;
      assert f.Covers(b) && e.Covers(b) && And(joined, e.Mask())[b];
    } else {
      forall b | 0 <= b < SIZE ensures !And(joined, e.Mask())[b] {
        if f :| f in fields && f.Covers(b) {
          assert NoBitShared(f, e);
        }
      }
      forall b | 0 <= b < SIZE ensures Or(joined, e.Mask())[b] <==> exists f :: f in fields + [e] && f.Covers(b) {
        assert e in fields + [e];
        if f :| f in fields && f.Covers(b) {
          assert f in fields + [e];
        }
      }
    }
  }

  /** `BitFieldCoder`: its elements, and the bits that they use. */
  class BitFieldCoder {
    var fields: seq<Element>
    var joined: Word

    ghost predicate Valid()
      reads this
    {
      Apart(fields) && Joins(fields, joined)
    }

    constructor ()
      ensures Valid() && fields == []
    {
      fields, joined := [], Zeros(SIZE);
    }

    /**
     `done` is false for the two exceptions. The one about the range precedes the shifts, so that
     only a field of all 64 bits reaches an undefined one; the one about bits in use is thrown when
     the field has been appended.
     */
    method AddField(name: string, offset: nat, signedWidth: int) returns (done: bool)
      requires Valid()
      requires offset == 0 ==> signedWidth != 64 && signedWidth != -64
      modifies this
      ensures var e := Element(name, offset, if signedWidth < 0 then -signedWidth else signedWidth, signedWidth < 0);
              && (done <==> e.Valid() && forall f :: f in old(fields) ==> NoBitShared(f, e))
              && (done ==> Valid())
              && fields == (if e.Valid() then old(fields) + [e] else old(fields))
    {
      var width := if signedWidth < 0 then -signedWidth else signedWidth;
      var e := Element(name, offset, width, signedWidth < 0);
      if offset > 63 || offset + width > 64 {
        return false;
      }
      UsedBits(fields, joined, e);
      fields := fields + [e];
      if And(joined, e.Mask()) != Zeros(SIZE) {
        return false;
      }
      joined := Or(joined, e.Mask());
      done := true;
    }
  }
}
