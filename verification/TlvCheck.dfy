/** wmitlv_check_tlv_params of core/wmi/wmi_tlv_helper.c: is a buffer a sequence of
  * TLVs as the attribute table describes them for a command or event?
  *
  * A TLV is a 32-bit header, stored least significant byte first (length of the
  * value in the lower half, tag in the upper half), and the value. */
module TlvCheck {
  import opened Bytes
  import opened TlvTable

  const TLV_HDR_SIZE: nat := 4
  const FIRST_ARRAY_ENUM: nat := 16
  const TAG_ARRAY_UINT32: nat := 16
  const TAG_ARRAY_BYTE: nat := 17
  const TAG_ARRAY_STRUC: nat := 18
  const TAG_ARRAY_FIXED_STRUC: nat := 19
  const LAST_ARRAY_ENUM: nat := 31
  const SIZE_FIX: nat := 0
  const ARR_SIZE_INVALID: nat := 0x1FE

  datatype Tlv = Tlv(tag: nat, value: seq<byte>)
  {
    predicate Valid() {
      tag < 0x1_0000 && |value| < 0x1_0000
    }
  }

  // ---------- the format ----------

  function EncodeTlv(t: Tlv): (b: seq<byte>)
    requires t.Valid()
    ensures |b| == TLV_HDR_SIZE + |t.value|
  {
    [|t.value| % 256, |t.value| / 256, t.tag % 256, t.tag / 256] + t.value
  }

  ghost predicate AllValid(tlvs: seq<Tlv>) {
    forall i :: 0 <= i < |tlvs| ==> tlvs[i].Valid()
  }

  function EncodeTlvs(tlvs: seq<Tlv>): seq<byte>
    requires AllValid(tlvs)
  {
    if tlvs == [] then [] else EncodeTlv(tlvs[0]) + EncodeTlvs(tlvs[1..])
  }

  function TlvLen(b: seq<byte>): nat
    requires |b| >= TLV_HDR_SIZE
  {
    b[0] as int + 256 * b[1] as int
  }

  function TlvTag(b: seq<byte>): nat
    requires |b| >= TLV_HDR_SIZE
  {
    b[2] as int + 256 * b[3] as int
  }

  /** True when `b` begins with a whole TLV. */
  predicate StartsWithTlv(b: seq<byte>) {
    |b| >= TLV_HDR_SIZE && TLV_HDR_SIZE + TlvLen(b) <= |b|
  }

  function FirstTlv(b: seq<byte>): (t: Tlv)
    requires StartsWithTlv(b)
    ensures t.Valid()
  {
    Tlv(TlvTag(b), b[TLV_HDR_SIZE..TLV_HDR_SIZE + TlvLen(b)])
  }

  function AfterTlv(b: seq<byte>): (r: seq<byte>)
    requires StartsWithTlv(b)
    ensures |r| < |b|
  {
    b[TLV_HDR_SIZE + TlvLen(b)..]
  }

  /** Taking the first TLV off undoes putting it in front. */
  lemma FirstTlvSound(b: seq<byte>)
    requires StartsWithTlv(b)
    ensures EncodeTlv(FirstTlv(b)) + AfterTlv(b) == b
  {
    var n := TlvLen(b);
    assert n % 256 == b[0] && n / 256 == b[1] && TlvTag(b) % 256 == b[2] && TlvTag(b) / 256 == b[3];
    assert EncodeTlv(FirstTlv(b)) == b[..TLV_HDR_SIZE + n];
  }

  lemma FirstTlvUnique(t: Tlv, rest: seq<byte>)
    requires t.Valid()
    ensures var b := EncodeTlv(t) + rest; StartsWithTlv(b) && FirstTlv(b) == t && AfterTlv(b) == rest
  {
    var b := EncodeTlv(t) + rest;
    assert b[0] == |t.value| % 256 && b[1] == |t.value| / 256 && b[2] == t.tag % 256 && b[3] == t.tag / 256;
  }

  // ---------- what a TLV has to look like ----------

  predicate IsArray(tag: nat) {
    FIRST_ARRAY_ENUM <= tag <= LAST_ARRAY_ENUM
  }

  function RoundUp4(n: nat): (r: nat)
    ensures r % 4 == 0 && n <= r < n + 4
  {
    (n + 3) / 4 * 4
  }

  function FixedLength(a: Attr): nat {
    if a.tagId == TAG_ARRAY_BYTE then RoundUp4(a.arraySize * a.structSize) else a.arraySize * a.structSize
  }

  /** The value of an array of structures is made of TLVs of `size` bytes each. */
  ghost predicate InnerTlvs(value: seq<byte>, size: nat, inner: seq<Tlv>) {
    AllValid(inner) && EncodeTlvs(inner) == value && forall i :: 0 <= i < |inner| ==> TLV_HDR_SIZE + |inner[i].value| == size
  }

  ghost predicate Inner(value: seq<byte>, size: nat) {
    exists inner :: InnerTlvs(value, size, inner)
  }

  /** The requirements on the value of a TLV whose length varies. */
  ghost predicate VariedMatches(a: Attr, value: seq<byte>) {
    && a.arraySize == ARR_SIZE_INVALID
    && (value != [] ==>
          && a.structSize > 0 && |value| % a.structSize == 0
          && TAG_ARRAY_UINT32 <= a.tagId <= TAG_ARRAY_FIXED_STRUC
          && (a.tagId == TAG_ARRAY_STRUC ==> Inner(value, a.structSize)))
  }

  ghost predicate Matches(a: Attr, t: Tlv) {
    && t.tag == a.tagId && |t.value| % 4 == 0
    && if !IsArray(t.tag) then TLV_HDR_SIZE + |t.value| == a.structSize
       else if a.varied == SIZE_FIX then a.arraySize != ARR_SIZE_INVALID && |t.value| == FixedLength(a)
       else VariedMatches(a, t.value)
  }

  /** The validator's meaning: the buffer is a sequence of TLVs that match the first
    * attributes, one each, and a tail too short to be a header. */
  ghost predicate Conforms(b: seq<byte>, attrs: seq<Attr>) {
    exists tlvs, tail :: ConformsAs(b, attrs, tlvs, tail)
  }

  ghost predicate ConformsAs(b: seq<byte>, attrs: seq<Attr>, tlvs: seq<Tlv>, tail: seq<byte>) {
    && AllValid(tlvs) && |tlvs| <= |attrs| && |tail| < TLV_HDR_SIZE
    && b == EncodeTlvs(tlvs) + tail
    && forall i :: 0 <= i < |tlvs| ==> Matches(attrs[i], tlvs[i])
  }

  // ---------- how a sender fills a TLV ----------

  function Concat(elems: seq<seq<byte>>): seq<byte> {
    if elems == [] then [] else elems[0] + Concat(elems[1..])
  }

  ghost predicate AllOfSize(elems: seq<seq<byte>>, size: nat) {
    forall i :: 0 <= i < |elems| ==> |elems[i]| == size
  }

  /** Every element is a structure with a header of its own. */
  ghost predicate AllStructures(elems: seq<seq<byte>>) {
    forall i :: 0 <= i < |elems| ==> IsStructure(elems[i])
  }

  ghost predicate IsStructure(elem: seq<byte>) {
    exists t: Tlv :: t.Valid() && EncodeTlv(t) == elem
  }

  /** A structure, header included, of the attribute's size. */
  ghost predicate IsPlain(a: Attr, t: Tlv)
    requires t.Valid()
  {
    |EncodeTlv(t)| == a.structSize && |EncodeTlv(t)| % 4 == 0
  }

  /** `n` elements of the attribute's size; bytes are filled up to a multiple of four. */
  ghost predicate IsFixedArray(a: Attr, value: seq<byte>) {
    a.arraySize != 0x1FE && |value| % 4 == 0 && exists elems, pad :: FixedArrayOf(a, value, elems, pad)
  }

  ghost predicate FixedArrayOf(a: Attr, value: seq<byte>, elems: seq<seq<byte>>, pad: seq<byte>) {
    && value == Concat(elems) + pad && |elems| == a.arraySize && AllOfSize(elems, a.structSize)
    && (if a.tagId == 17 then |pad| < 4 else pad == [])
  }

  /** Any number of elements of the attribute's size: words, bytes, structures with a
    * header each, or structures without. */
  ghost predicate IsVaryingArray(a: Attr, value: seq<byte>) {
    && a.arraySize == 0x1FE && |value| % 4 == 0
    && exists elems :: VaryingArrayOf(a, value, elems)
  }

  ghost predicate VaryingArrayOf(a: Attr, value: seq<byte>, elems: seq<seq<byte>>) {
    && value == Concat(elems) && AllOfSize(elems, a.structSize) && (elems != [] ==> 16 <= a.tagId <= 19)
    && (a.tagId == 18 ==> AllStructures(elems))
  }

  /** What a sender puts where the table has this attribute. */
  ghost predicate Fills(a: Attr, t: Tlv)
    requires t.Valid()
  {
    && t.tag == a.tagId
    && if !(16 <= a.tagId <= 31) then IsPlain(a, t)
       else if a.varied == 0 then IsFixedArray(a, t.value)
       else IsVaryingArray(a, t.value)
  }

  lemma {:induction false} ConcatLength(elems: seq<seq<byte>>, size: nat)
    requires AllOfSize(elems, size)
    ensures |Concat(elems)| == |elems| * size
  {
    if elems != [] {
      ConcatLength(elems[1..], size);
      OneElementMore(|elems|, size);
    }
  }

  /** Cutting a value into elements. */
  lemma {:induction false} Cut(value: seq<byte>, n: nat, size: nat) returns (elems: seq<seq<byte>>)
    requires n * size <= |value|
    ensures |elems| == n && AllOfSize(elems, size) && Concat(elems) == value[..n * size]
    decreases n
  {
    if n == 0 {
      elems := [];
    } else {
      OneElementMore(n, size);
      var rest := Cut(value[size..], n - 1, size);
      elems := [value[..size]] + rest;
      assert elems[1..] == rest;
      assert value[..size] + value[size..][..(n - 1) * size] == value[..n * size];
    }
  }

  lemma MultipleOfFour(n: nat, len: nat)
    ensures len == RoundUp4(n) <==> len % 4 == 0 && n <= len < n + 4
  {
  }

  lemma {:induction false} FixedHasLength(a: Attr, value: seq<byte>)
    requires IsFixedArray(a, value)
    ensures a.arraySize != ARR_SIZE_INVALID && |value| == FixedLength(a)
  {
    hide Concat, AllOfSize, RoundUp4;
    MultipleOfFour(a.arraySize * a.structSize, |value|);
    var elems, pad :| FixedArrayOf(a, value, elems, pad);
    ConcatLength(elems, a.structSize);
  }

  lemma {:induction false} LengthIsFixed(a: Attr, value: seq<byte>)
    requires |value| % 4 == 0 && a.arraySize != ARR_SIZE_INVALID && |value| == FixedLength(a)
    ensures IsFixedArray(a, value)
  {
    hide Concat, AllOfSize, RoundUp4;
    var n := a.arraySize * a.structSize;
    MultipleOfFour(n, |value|);
    var elems := Cut(value, a.arraySize, a.structSize);
    assert value == value[..n] + value[n..];
    assert FixedArrayOf(a, value, elems, value[n..]);
  }

  /** The value of an array of structures, as TLVs and as elements. */
  lemma {:induction false} InnerToElements(inner: seq<Tlv>, size: nat) returns (elems: seq<seq<byte>>)
    requires AllValid(inner) && forall i :: 0 <= i < |inner| ==> TLV_HDR_SIZE + |inner[i].value| == size
    ensures AllOfSize(elems, size) && AllStructures(elems) && Concat(elems) == EncodeTlvs(inner)
  {
    hide EncodeTlv;
    if inner == [] {
      elems := [];
    } else {
      var rest := InnerToElements(inner[1..], size);
      elems := [EncodeTlv(inner[0])] + rest;
      assert elems[1..] == rest;
    }
  }

  lemma {:induction false} ElementsToInner(elems: seq<seq<byte>>, size: nat) returns (inner: seq<Tlv>)
    requires AllOfSize(elems, size) && AllStructures(elems)
    ensures InnerTlvs(Concat(elems), size, inner)
  {
    hide EncodeTlv;
    if elems == [] {
      inner := [];
    } else {
      var rest := ElementsToInner(elems[1..], size);
      assert IsStructure(elems[0]);
      var t: Tlv :| t.Valid() && EncodeTlv(t) == elems[0];
      inner := [t] + rest;
      assert inner[1..] == rest;
    }
  }

  lemma {:induction false} VariedIsFilled(a: Attr, value: seq<byte>)
    requires |value| % 4 == 0 && IsArray(a.tagId) && VariedMatches(a, value)
    ensures IsVaryingArray(a, value)
  {
    hide Concat, AllOfSize, AllStructures;
    if value == [] {
      NoElements();
      assert VaryingArrayOf(a, value, []);
    } else if a.tagId == TAG_ARRAY_STRUC {
      var inner :| InnerTlvs(value, a.structSize, inner);
      var elems := InnerToElements(inner, a.structSize);
      assert VaryingArrayOf(a, value, elems);
    } else {
      var n := |value| / a.structSize;
      WholeElements(|value|, a.structSize);
      var elems := Cut(value, n, a.structSize);
      assert value[..n * a.structSize] == value;
      assert VaryingArrayOf(a, value, elems);
    }
  }

  lemma NoElements()
    ensures Concat([]) == [] && AllStructures([]) && forall size: nat :: AllOfSize([], size)
  {
  }

  lemma {:induction false} FilledIsVaried(a: Attr, value: seq<byte>)
    requires IsVaryingArray(a, value) && Sized(a) && IsArray(a.tagId) && a.varied != SIZE_FIX
    ensures VariedMatches(a, value)
  {
    hide Concat, AllOfSize, AllStructures, InnerTlvs;
    var elems :| VaryingArrayOf(a, value, elems);
    if value != [] {
      NoElements();
      assert elems != [];
      ConcatLength(elems, a.structSize);
      WholeMultiple(|elems|, a.structSize);
      if a.tagId == TAG_ARRAY_STRUC {
        var inner := ElementsToInner(elems, a.structSize);
      }
    }
  }

  lemma WholeMultiple(n: nat, size: nat)
    requires size > 0
    ensures (n * size) % size == 0
  {
    var x := n * size;
    NoRemainder(n - x / size, size, x % size, x, n);
  }

  lemma NoRemainder(d: int, size: nat, r: nat, x: int, n: int)
    requires size > 0 && r == x % size && x == n * size && d == n - x / size
    ensures r == 0
  {
    var q := x / size;
    assert x == q * size + r;
    assert d * size == r;
    Between(d, size);
  }

  lemma Between(d: int, size: nat)
    requires 0 <= d * size < size
    ensures d == 0
  {
    if d >= 1 {
      OneElementMore(d, size);
    }
  }

  /** The validator's checks accept exactly what a sender fills in. */
  lemma {:induction false} MatchesIfFilled(a: Attr, t: Tlv)
    requires t.Valid() && Sized(a)
    ensures Matches(a, t) <==> Fills(a, t)
  {
    hide VariedMatches, IsVaryingArray, IsFixedArray, FixedLength;
    if t.tag == a.tagId && IsArray(a.tagId) {
      if a.varied == SIZE_FIX {
        FixedIsAligned(a, t.value);
        if IsFixedArray(a, t.value) {
          FixedHasLength(a, t.value);
        }
        if |t.value| % 4 == 0 && a.arraySize != ARR_SIZE_INVALID && |t.value| == FixedLength(a) {
          LengthIsFixed(a, t.value);
        }
      } else {
        VaryingIsAligned(a, t.value);
        if |t.value| % 4 == 0 && VariedMatches(a, t.value) {
          VariedIsFilled(a, t.value);
        }
        if IsVaryingArray(a, t.value) {
          FilledIsVaried(a, t.value);
        }
      }
    }
  }

  lemma FixedIsAligned(a: Attr, value: seq<byte>)
    ensures IsFixedArray(a, value) ==> |value| % 4 == 0
  {
  }

  lemma VaryingIsAligned(a: Attr, value: seq<byte>)
    ensures IsVaryingArray(a, value) ==> |value| % 4 == 0
  {
  }

  /** A message as a sender builds it: TLVs for the first attributes, one each, and fewer
    * bytes behind them than a header. */
  ghost predicate IsMessage(b: seq<byte>, attrs: seq<Attr>) {
    exists tlvs, tail :: MessageOf(b, attrs, tlvs, tail)
  }

  ghost predicate MessageOf(b: seq<byte>, attrs: seq<Attr>, tlvs: seq<Tlv>, tail: seq<byte>) {
    && AllValid(tlvs) && |tlvs| <= |attrs| && |tail| < 4
    && b == EncodeTlvs(tlvs) + tail
    && forall i :: 0 <= i < |tlvs| ==> Fills(attrs[i], tlvs[i])
  }

  lemma {:induction false} ConformsIfMessage(b: seq<byte>, attrs: seq<Attr>)
    requires forall k :: 0 <= k < |attrs| ==> Sized(attrs[k])
    ensures Conforms(b, attrs) <==> IsMessage(b, attrs)
  {
    hide Matches, Fills, EncodeTlvs, Sized;
    if Conforms(b, attrs) {
      var tlvs, tail :| ConformsAs(b, attrs, tlvs, tail);
      forall i | 0 <= i < |tlvs| ensures Fills(attrs[i], tlvs[i]) {
        MatchesIfFilled(attrs[i], tlvs[i]);
      }
      assert MessageOf(b, attrs, tlvs, tail);
    }
    if IsMessage(b, attrs) {
      var tlvs, tail :| MessageOf(b, attrs, tlvs, tail);
      forall i | 0 <= i < |tlvs| ensures Matches(attrs[i], tlvs[i]) {
        MatchesIfFilled(attrs[i], tlvs[i]);
      }
      assert ConformsAs(b, attrs, tlvs, tail);
    }
  }

  // ---------- one TLV at a time ----------

  /** The same, one TLV at a time. */
  lemma {:induction false} ConformsStep(b: seq<byte>, attrs: seq<Attr>)
    ensures |b| < TLV_HDR_SIZE ==> Conforms(b, attrs)
    ensures |b| >= TLV_HDR_SIZE ==> (Conforms(b, attrs) <==>
      StartsWithTlv(b) && attrs != [] && Matches(attrs[0], FirstTlv(b)) && Conforms(AfterTlv(b), attrs[1..]))
  {
    hide Matches;
    if |b| < TLV_HDR_SIZE {
      assert EncodeTlvs([]) + b == b;
      assert ConformsAs(b, attrs, [], b);
    } else {
      if Conforms(b, attrs) {
        ConformsHead(b, attrs);
      }
      if StartsWithTlv(b) && attrs != [] && Matches(attrs[0], FirstTlv(b)) && Conforms(AfterTlv(b), attrs[1..]) {
        ConformsCons(b, attrs);
      }
    }
  }

  lemma ConformsHead(b: seq<byte>, attrs: seq<Attr>)
    requires |b| >= TLV_HDR_SIZE && Conforms(b, attrs)
    ensures StartsWithTlv(b) && attrs != [] && Matches(attrs[0], FirstTlv(b)) && Conforms(AfterTlv(b), attrs[1..])
  {
    hide Matches, EncodeTlv, FirstTlv, AfterTlv, StartsWithTlv;
    var tlvs, tail :| ConformsAs(b, attrs, tlvs, tail);
    assert tlvs == [] ==> b == tail;
    var rest := EncodeTlvs(tlvs[1..]) + tail;
    assert b == EncodeTlv(tlvs[0]) + rest;
    FirstTlvUnique(tlvs[0], rest);
    assert ConformsAs(rest, attrs[1..], tlvs[1..], tail);
  }

  lemma ConformsCons(b: seq<byte>, attrs: seq<Attr>)
    requires StartsWithTlv(b) && attrs != [] && Matches(attrs[0], FirstTlv(b)) && Conforms(AfterTlv(b), attrs[1..])
    ensures Conforms(b, attrs)
  {
    hide Matches, EncodeTlv, FirstTlv, AfterTlv, StartsWithTlv;
    var tlvs, tail :| ConformsAs(AfterTlv(b), attrs[1..], tlvs, tail);
    FirstTlvSound(b);
    var all := [FirstTlv(b)] + tlvs;
    assert all[1..] == tlvs;
    assert EncodeTlvs(all) + tail == EncodeTlv(FirstTlv(b)) + (EncodeTlvs(tlvs) + tail);
    assert ConformsAs(b, attrs, all, tail);
  }

  /** Inner TLVs, one at a time. */
  lemma {:induction false} InnerStep(value: seq<byte>, size: nat)
    requires size >= TLV_HDR_SIZE
    ensures value == [] ==> Inner(value, size)
    ensures |value| >= size ==>
      (Inner(value, size) <==> TlvLen(value) + TLV_HDR_SIZE == size && Inner(value[size..], size))
  {
    hide EncodeTlv;
    if value == [] {
      assert InnerTlvs(value, size, []);
    } else if |value| >= size {
      if Inner(value, size) {
        var inner :| InnerTlvs(value, size, inner);
        assert inner != [];
        var rest := EncodeTlvs(inner[1..]);
        assert value == EncodeTlv(inner[0]) + rest;
        FirstTlvUnique(inner[0], rest);
        assert InnerTlvs(value[size..], size, inner[1..]);
      }
      if TlvLen(value) + TLV_HDR_SIZE == size && Inner(value[size..], size) {
        var rest :| InnerTlvs(value[size..], size, rest);
        FirstTlvSound(value);
        var inner := [FirstTlv(value)] + rest;
        assert inner[1..] == rest;
        assert InnerTlvs(value, size, inner);
      }
    }
  }

  // ---------- the loops ----------

  function HeaderTag(buf: array<byte>, at: nat): (tag: nat)
    requires at + TLV_HDR_SIZE <= buf.Length
    reads buf
    ensures tag == TlvTag(buf[at..at + TLV_HDR_SIZE]) && tag < 0x1_0000
  {
    buf[at + 2] as int + 256 * buf[at + 3] as int
  }

  function HeaderLen(buf: array<byte>, at: nat): (len: nat)
    requires at + TLV_HDR_SIZE <= buf.Length
    reads buf
    ensures len == TlvLen(buf[at..at + TLV_HDR_SIZE]) && len < 0x1_0000
  {
    buf[at] as int + 256 * buf[at + 1] as int
  }

  lemma WholeElements(len: nat, size: nat)
    requires size > 0 && len % size == 0
    ensures len / size * size == len
  {
  }

  lemma OneElementMore(left: nat, size: nat)
    requires left >= 1
    ensures left * size >= size && (left - 1) * size == left * size - size
  {
  }

  /** The loop over the elements of an array of structures (304-341). */
  method CheckInnerTlvs(buf: array<byte>, at: nat, len: nat, size: nat) returns (ok: bool)
    requires at + len <= buf.Length && size >= TLV_HDR_SIZE && len % size == 0
    ensures ok <==> Inner(buf[at..at + len], size)
  {
    hide Inner;
    var num_of_elems := len / size;
    WholeElements(len, size);
    var tlv_buf_ptr, idx := at, 0;
    while idx < num_of_elems
      invariant 0 <= idx <= num_of_elems && at <= tlv_buf_ptr
      invariant (num_of_elems - idx) * size == at + len - tlv_buf_ptr
      invariant Inner(buf[at..at + len], size) <==> Inner(buf[tlv_buf_ptr..at + len], size)
    {
      OneElementMore(num_of_elems - idx, size);
      ghost var rest := buf[tlv_buf_ptr..at + len];
      InnerStep(rest, size);
      var in_tlv_len := HeaderLen(buf, tlv_buf_ptr);
      assert in_tlv_len == TlvLen(rest);
      if in_tlv_len + TLV_HDR_SIZE != size {
        return false;
      }
      assert rest[size..] == buf[tlv_buf_ptr + size..at + len];
      tlv_buf_ptr := tlv_buf_ptr + in_tlv_len + TLV_HDR_SIZE;
      idx := idx + 1;
    }
    InnerStep([], size);
    assert buf[tlv_buf_ptr..at + len] == [];
    return true;
  }

  /** The table is one that the definitions of commands can produce: an array of
    * varying length has elements, and an array of structures elements with a
    * header of their own. */
  ghost predicate Sized(a: Attr) {
    IsArray(a.tagId) && a.varied != SIZE_FIX && a.arraySize == ARR_SIZE_INVALID ==>
      a.structSize > 0 && (a.tagId == TAG_ARRAY_STRUC ==> a.structSize >= TLV_HDR_SIZE)
  }

  /** The checks on one TLV (227-382). */
  method CheckTlv(buf: array<byte>, buf_ptr: nat, attr: Attributes, ghost a: Attr) returns (ok: bool)
    requires buf_ptr + TLV_HDR_SIZE <= buf.Length && StartsWithTlv(buf[buf_ptr..])
    requires attr.Shows(a) && Sized(a)
    ensures ok <==> Matches(a, FirstTlv(buf[buf_ptr..]))
  {
    hide InnerTlvs, EncodeTlvs;
    ghost var t := FirstTlv(buf[buf_ptr..]);
    var curr_tlv_tag, curr_tlv_len := HeaderTag(buf, buf_ptr), HeaderLen(buf, buf_ptr);
    assert t.tag == curr_tlv_tag && |t.value| == curr_tlv_len;
    if curr_tlv_tag != attr.tag_id {
      return false;
    }
    if FIRST_ARRAY_ENUM <= curr_tlv_tag <= LAST_ARRAY_ENUM {
      if attr.tag_varied_size == SIZE_FIX {
        if attr.tag_array_size == ARR_SIZE_INVALID {
          return false;
        }
        var expected_tlv_len := attr.tag_array_size * attr.tag_struct_size;
        if attr.tag_id == TAG_ARRAY_BYTE {
          expected_tlv_len := RoundUp4(expected_tlv_len);
        }
        if curr_tlv_len != expected_tlv_len {
          return false;
        }
      } else {
        if attr.tag_array_size != ARR_SIZE_INVALID {
          return false;
        }
        if curr_tlv_len != 0 {
          if curr_tlv_len % attr.tag_struct_size != 0 {
            return false;
          }
          if curr_tlv_tag == TAG_ARRAY_STRUC {
            var at := buf_ptr + TLV_HDR_SIZE;
            assert t.value == buf[at..at + curr_tlv_len];
            var inner := CheckInnerTlvs(buf, at, curr_tlv_len, attr.tag_struct_size);
            if !inner {
              return false;
            }
          } else if curr_tlv_tag == TAG_ARRAY_UINT32 || curr_tlv_tag == TAG_ARRAY_BYTE || curr_tlv_tag == TAG_ARRAY_FIXED_STRUC {
          } else {
            return false;
          }
        }
      }
    } else {
      if curr_tlv_len + TLV_HDR_SIZE != attr.tag_struct_size {
        return false;
      }
    }
    if curr_tlv_len % 4 != 0 {
      return false;
    }
    return true;
  }

  /** wmitlv_check_tlv_params: 0 exactly for the buffers that conform to the first
    * table entry for the command; a command without an entry is refused.  The
    * sums of the loop are of type size_t in the source and do not wrap. */
  method CheckTlvParams(table: seq<word>, buf: array<byte>, param_buf_len: word, wmi_cmd_event_id: word, ghost entries: seq<Entry>)
    returns (code: int)
    requires ValidEntries(entries) && table == Flatten(entries)
    requires forall i, k :: 0 <= i < |entries| && 0 <= k < |entries[i].attrs| ==> Sized(entries[i].attrs[k])
    requires param_buf_len <= buf.Length
    ensures code == 0 || code == -1
    ensures var e := FirstEntry(entries, wmi_cmd_event_id);
      code == 0 <==> e < |entries| && Conforms(buf[..param_buf_len], entries[e].attrs)
    ensures var e := FirstEntry(entries, wmi_cmd_event_id);
      code == 0 <==> e < |entries| && IsMessage(buf[..param_buf_len], entries[e].attrs)
  {
    hide IsMessage, Sized, Conforms, Matches, FirstTlv, Flatten, FirstEntry, AfterTlv;
    ghost var e, data := FirstEntry(entries, wmi_cmd_event_id), buf[..param_buf_len];
    var zero := Attributes(0, 0, 0, 0, 0, 0);
    var failed, attr := GetAttributes(table, wmi_cmd_event_id, GET_ATTRIB_NUM_TLVS, zero, entries);
    if failed != 0 {
      return -1;
    }
    ghost var attrs := entries[e].attrs;
    ConformsIfMessage(data, attrs);
    var buf_idx: nat, tlv_index: nat := 0, 0;
    assert data[0..] == data && attrs[0..] == attrs;
    while buf_idx + TLV_HDR_SIZE <= param_buf_len
      invariant buf_idx <= param_buf_len && tlv_index <= |attrs| && buf_idx % 4 == 0
      invariant Conforms(data, attrs) <==> Conforms(data[buf_idx..], attrs[tlv_index..])
      decreases param_buf_len - buf_idx
    {
      ghost var rest := data[buf_idx..];
      NextTlv(data, attrs, buf_idx, tlv_index);
      var curr_tlv_len := HeaderLen(buf, buf_idx);
      assert curr_tlv_len == TlvLen(rest);
      if buf_idx + TLV_HDR_SIZE + curr_tlv_len > param_buf_len {
        return -1;
      }
      failed, attr := GetAttributes(table, wmi_cmd_event_id, tlv_index, zero, entries);
      if failed != 0 {
        return -1;
      }
      FirstTlvPrefix(buf[buf_idx..], rest);
      var ok := CheckTlv(buf, buf_idx, attr, attrs[tlv_index]);
      if !ok {
        return -1;
      }
      MatchesAligned(attrs[tlv_index], rest);
      tlv_index := tlv_index + 1;
      buf_idx := buf_idx + curr_tlv_len + TLV_HDR_SIZE;
    }
    ConformsStep(data[buf_idx..], attrs[tlv_index..]);
    return 0;
  }

  /** One TLV further in the buffer and in the attributes. */
  lemma NextTlv(data: seq<byte>, attrs: seq<Attr>, at: nat, k: nat)
    requires at + TLV_HDR_SIZE <= |data| && k <= |attrs|
    ensures var rest := data[at..]; var end := at + TLV_HDR_SIZE + TlvLen(rest);
      && (StartsWithTlv(rest) <==> end <= |data|)
      && (Conforms(rest, attrs[k..]) <==>
            end <= |data| && k < |attrs| && Matches(attrs[k], FirstTlv(rest)) && Conforms(data[end..], attrs[k + 1..]))
  {
    hide Conforms, Matches, FirstTlv;
    var rest := data[at..];
    ConformsStep(rest, attrs[k..]);
    if StartsWithTlv(rest) && k < |attrs| {
      assert AfterTlv(rest) == data[at + TLV_HDR_SIZE + TlvLen(rest)..] && attrs[k..][1..] == attrs[k + 1..];
    }
  }

  /** The first TLV does not depend on what follows the buffer. */
  lemma FirstTlvPrefix(longer: seq<byte>, b: seq<byte>)
    requires StartsWithTlv(b) && |b| <= |longer| && longer[..|b|] == b
    ensures StartsWithTlv(longer) && FirstTlv(longer) == FirstTlv(b)
  {
    assert forall i :: 0 <= i < |b| ==> longer[i] == longer[..|b|][i];
  }

  lemma MatchesAligned(a: Attr, b: seq<byte>)
    requires StartsWithTlv(b) && Matches(a, FirstTlv(b))
    ensures TlvLen(b) % 4 == 0
  {
  }
}
