/** The attribute table of core/wmi/wmi_tlv_helper.c: one flat array of 32-bit words
  * that lists, for every command or event, a head word and one word per TLV. */
module TlvTable {
  import opened Bytes

  const GET_ATTRIB_NUM_TLVS: word := 0xFFFF_FFFF

  /** What a table says about one TLV. */
  datatype Attr = Attr(tagId: nat, structSize: nat, arraySize: nat, varied: nat)
  {
    /** The fields fit their bits. */
    predicate Fits() {
      tagId < 0x1000 && structSize < 0x200 && arraySize < 0x200 && varied < 2
    }
  }

  // ---------- the packed words ----------

  function CmdId(w: word): nat { w % 0x100_0000 }
  function NumTlvs(w: word): nat { (w / 0x100_0000) % 0x100 }
  function TagId(w: word): nat { w % 0x1000 }
  function StructSize(w: word): nat { (w / 0x1000) % 0x200 }
  function ArraySize(w: word): nat { (w / 0x20_0000) % 0x200 }
  function Varied(w: word): nat { (w / 0x4000_0000) % 2 }

  function Unpack(w: word): (a: Attr)
    ensures a.Fits()
  {
    Attr(TagId(w), StructSize(w), ArraySize(w), Varied(w))
  }

  /** WMITLV_SET_ATTRB0 */
  function SetAttrb0(id: word, numTlvs: nat): word
    requires numTlvs < 0x100
  {
    numTlvs * 0x100_0000 + id % 0x100_0000
  }

  /** WMITLV_SET_ATTRB1: the fields are masked, so a field that is too wide loses its
    * upper bits. */
  function SetAttrb1(a: Attr): word {
    (a.varied % 2) * 0x4000_0000 + (a.arraySize % 0x200) * 0x20_0000 + (a.structSize % 0x200) * 0x1000 + a.tagId % 0x1000
  }

  lemma HeadRoundTrip(id: word, numTlvs: nat)
    requires numTlvs < 0x100
    ensures NumTlvs(SetAttrb0(id, numTlvs)) == numTlvs
    ensures CmdId(SetAttrb0(id, numTlvs)) == CmdId(id)
  {
  }

  lemma Packed(v: nat, n: nat, s: nat, t: nat)
    requires v < 2 && n < 0x200 && s < 0x200 && t < 0x1000
    ensures var w := v * 0x4000_0000 + n * 0x20_0000 + s * 0x1000 + t;
      w % 0x1000 == t && (w / 0x1000) % 0x200 == s && (w / 0x20_0000) % 0x200 == n && (w / 0x4000_0000) % 2 == v
  {
    var w := v * 0x4000_0000 + n * 0x20_0000 + s * 0x1000 + t;
    assert w / 0x1000 == v * 0x4_0000 + n * 0x200 + s;
    assert w / 0x20_0000 == v * 0x200 + n;
    assert w / 0x4000_0000 == v;
  }

  /** Packing and unpacking is the identity exactly on attributes that fit. */
  lemma AttrRoundTrip(a: Attr)
    ensures Unpack(SetAttrb1(a)) == a <==> a.Fits()
  {
    Packed(a.varied % 2, a.arraySize % 0x200, a.structSize % 0x200, a.tagId % 0x1000);
  }

  // ---------- the table ----------

  datatype Entry = Entry(id: word, attrs: seq<Attr>)
  {
    ghost predicate Valid() {
      |attrs| < 0x100 && forall k :: 0 <= k < |attrs| ==> attrs[k].Fits()
    }
  }

  ghost predicate ValidEntries(entries: seq<Entry>) {
    forall i :: 0 <= i < |entries| ==> entries[i].Valid()
  }

  function PackAttrs(attrs: seq<Attr>): (r: seq<word>)
    ensures |r| == |attrs| && forall k :: 0 <= k < |attrs| ==> r[k] == SetAttrb1(attrs[k])
  {
    seq(|attrs|, k requires 0 <= k < |attrs| => SetAttrb1(attrs[k]))
  }

  /** The table as the macros of the TLV definitions lay it out. */
  function Flatten(entries: seq<Entry>): seq<word>
    requires ValidEntries(entries)
  {
    if entries == [] then []
    else [SetAttrb0(entries[0].id, |entries[0].attrs|)] + PackAttrs(entries[0].attrs) + Flatten(entries[1..])
  }

  /** The index of the first entry with the 24-bit id of `id`; |entries| without one. */
  function FirstEntry(entries: seq<Entry>, id: word): (k: nat)
    ensures k <= |entries|
    ensures forall i :: 0 <= i < k ==> CmdId(entries[i].id) != CmdId(id)
    ensures k < |entries| ==> CmdId(entries[k].id) == CmdId(id)
  {
    if entries == [] || CmdId(entries[0].id) == CmdId(id) then 0 else 1 + FirstEntry(entries[1..], id)
  }

  /** wmitlv_attributes_struc */
  datatype Attributes = Attributes(cmd_num_tlv: nat, tag_order: nat, tag_id: nat,
                                   tag_struct_size: nat, tag_varied_size: nat, tag_array_size: nat)
  {
    predicate Shows(a: Attr) {
      tag_id == a.tagId && tag_struct_size == a.structSize && tag_varied_size == a.varied && tag_array_size == a.arraySize
    }
  }

  /** What a table lookup is to give back: 0 or 1, and the structure `before` with
    * the fields the code writes. */
  ghost predicate LooksUp(entries: seq<Entry>, id: word, order: word, before: Attributes, code: nat, after: Attributes) {
    var k := FirstEntry(entries, id);
    if k == |entries| then
      code == 1 && after == before
    else if order == GET_ATTRIB_NUM_TLVS then
      code == 0 && after == before.(cmd_num_tlv := |entries[k].attrs|)
    else if order >= |entries[k].attrs| then
      code == 1 && after == before.(cmd_num_tlv := |entries[k].attrs|)
    else
      && code == 0 && after.cmd_num_tlv == |entries[k].attrs| && after.tag_order == order
      && after.Shows(entries[k].attrs[order])
  }

  /** The words of the table from entry `j` on. */
  lemma FlattenAt(entries: seq<Entry>, table: seq<word>, i: nat)
    requires ValidEntries(entries) && entries != [] && i <= |table| && table[i..] == Flatten(entries)
    ensures var n := |entries[0].attrs|;
      && i + 1 + n <= |table|
      && NumTlvs(table[i]) == n && CmdId(table[i]) == CmdId(entries[0].id)
      && (forall k :: 0 <= k < n ==> Unpack(table[i + 1 + k]) == entries[0].attrs[k])
      && table[i + 1 + n..] == Flatten(entries[1..])
  {
    var rest, n := table[i..], |entries[0].attrs|;
    HeadRoundTrip(entries[0].id, n);
    assert rest == [SetAttrb0(entries[0].id, n)] + PackAttrs(entries[0].attrs) + Flatten(entries[1..]);
    assert table[i] == rest[0];
    forall k | 0 <= k < n ensures Unpack(table[i + 1 + k]) == entries[0].attrs[k] {
      assert table[i + 1 + k] == rest[1 + k] == SetAttrb1(entries[0].attrs[k]);
      AttrRoundTrip(entries[0].attrs[k]);
    }
    assert table[i + 1 + n..] == rest[1 + n..];
  }

  /** wmitlv_get_attributes, over the command or the event table. */
  method GetAttributes(table: seq<word>, cmd_event_id: word, curr_tlv_order: word, tlv_attr: Attributes, ghost entries: seq<Entry>)
    returns (code: nat, attr: Attributes)
    requires ValidEntries(entries) && table == Flatten(entries)
    ensures LooksUp(entries, cmd_event_id, curr_tlv_order, tlv_attr, code, attr)
  {
    hide Unpack, CmdId, NumTlvs, Flatten;
    attr := tlv_attr;
    var i: nat := 0;
    ghost var j: nat := 0;
    assert table[0..] == table && entries[0..] == entries;
    while i < |table|
      invariant j <= |entries| && i <= |table| && table[i..] == Flatten(entries[j..])
      invariant attr == tlv_attr
      invariant forall e :: 0 <= e < j ==> CmdId(entries[e].id) != CmdId(cmd_event_id)
      decreases |table| - i
    {
      FlattenEnds(entries[j..]);
      FlattenAt(entries[j..], table, i);
      assert entries[j..][1..] == entries[j + 1..];
      var num_tlvs := NumTlvs(table[i]);
      if CmdId(cmd_event_id) == CmdId(table[i]) {
        assert FirstEntry(entries, cmd_event_id) == j;
        attr := attr.(cmd_num_tlv := num_tlvs);
        if curr_tlv_order == GET_ATTRIB_NUM_TLVS {
          return 0, attr;
        }
        if curr_tlv_order >= num_tlvs {
          return 1, attr;
        }
        var base_index := i + 1;
        var a := Unpack(table[base_index + curr_tlv_order]);
        attr := attr.(tag_order := curr_tlv_order);
        attr := attr.(tag_id := a.tagId);
        attr := attr.(tag_struct_size := a.structSize);
        attr := attr.(tag_varied_size := a.varied);
        attr := attr.(tag_array_size := a.arraySize);
        return 0, attr;
      }
      i := i + num_tlvs;
      i := i + 1;
      j := j + 1;
    }
    FlattenEnds(entries[j..]);
    return 1, attr;
  }

  lemma FlattenEnds(entries: seq<Entry>)
    requires ValidEntries(entries)
    ensures Flatten(entries) == [] <==> entries == []
  {
  }

  // ---------- what a lookup means ----------

  /** An entry for another command, wherever it stands in the table, is skipped as a
    * whole: its attribute words are never taken for heads. */
  lemma {:induction false} LookupSkipsOthers(front: seq<Entry>, other: Entry, back: seq<Entry>, id: word, order: word,
                                             before: Attributes, code: nat, after: Attributes)
    requires CmdId(other.id) != CmdId(id)
    ensures LooksUp(front + [other] + back, id, order, before, code, after) <==>
      LooksUp(front + back, id, order, before, code, after)
  {
    hide FirstEntry, CmdId;
    var with, without := front + [other] + back, front + back;
    var k, j := FirstEntry(with, id), FirstEntry(without, id);
    assert forall i :: 0 <= i < |without| ==> without[i] == with[if i < |front| then i else i + 1];
    assert forall n :: 0 <= n < |front| ==> with[n] == without[n];
    assert forall n :: |front| < n < |with| ==> with[n] == without[n - 1];
    assert with[|front|] == other;
    assert k == if j < |front| then j else j + 1;
  }

  /** The first entry for a command shadows every later one. */
  lemma {:induction false} LookupTakesFirst(front: seq<Entry>, more: seq<Entry>, id: word, order: word,
                                            before: Attributes, code: nat, after: Attributes)
    requires exists i :: 0 <= i < |front| && CmdId(front[i].id) == CmdId(id)
    ensures LooksUp(front + more, id, order, before, code, after) <==> LooksUp(front, id, order, before, code, after)
  {
    hide FirstEntry, CmdId;
    var k, j := FirstEntry(front + more, id), FirstEntry(front, id);
    assert forall i :: 0 <= i < |front| ==> (front + more)[i] == front[i];
    assert j < |front|;
    assert k == j;
  }

  /** What a lookup gives for the first entry of a command: the number of its attributes,
    * and the attribute asked for, field by field, if there is one. */
  lemma {:induction false} LookupGives(front: seq<Entry>, entry: Entry, back: seq<Entry>, id: word, order: word,
                                       before: Attributes, code: nat, after: Attributes)
    requires CmdId(entry.id) == CmdId(id) && forall i :: 0 <= i < |front| ==> CmdId(front[i].id) != CmdId(id)
    requires LooksUp(front + [entry] + back, id, order, before, code, after)
    ensures after.cmd_num_tlv == |entry.attrs|
    ensures code == 0 <==> order == 0xFFFF_FFFF || order < |entry.attrs|
    ensures code != 0 ==> code == 1
    ensures order != 0xFFFF_FFFF && order < |entry.attrs| ==>
      var a := entry.attrs[order];
      after == Attributes(|entry.attrs|, order, a.tagId, a.structSize, a.varied, a.arraySize)
    ensures order == 0xFFFF_FFFF || order >= |entry.attrs| ==> after == before.(cmd_num_tlv := |entry.attrs|)
  {
    hide FirstEntry, CmdId;
    var all := front + [entry] + back;
    assert all[|front|] == entry && forall i :: 0 <= i < |front| ==> all[i] == front[i];
    assert FirstEntry(all, id) == |front|;
  }

  /** Without an entry for the command a lookup fails and gives nothing. */
  lemma LookupFails(entries: seq<Entry>, id: word, order: word, before: Attributes, code: nat, after: Attributes)
    requires forall i :: 0 <= i < |entries| ==> CmdId(entries[i].id) != CmdId(id)
    requires LooksUp(entries, id, order, before, code, after)
    ensures code == 1 && after == before
  {
    hide FirstEntry, CmdId;
    assert FirstEntry(entries, id) == |entries|;
  }
}
