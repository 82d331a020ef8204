/** The circular, intrusive, doubly linked list of core/htc/dl_list.h.
  *
  * A list is a ring of nodes that passes through a head node which carries no
  * item.  A packet's list link is the first member of the packet, so a link and
  * the packet around it have one address; both are one object here, and `item`
  * stands for the rest of the packet.
  *
  * Every operation is proved to be the corresponding operation on the sequence
  * of nodes strictly between two visits of the head.
  */
module DlList {

  class DlNode<T(0)> {
    var pPrev: DlNode?<T>
    var pNext: DlNode?<T>
    var item: T

    /** DL_LIST_INIT */
    constructor (item: T)
      ensures this.item == item && pPrev == this && pNext == this
    {
      this.item := item;
      new;
      pPrev, pNext := this, this;
    }
  }

  /** One trip around the ring: the head, the members in order, the head again. */
  ghost function Trip<T(0)>(head: DlNode<T>, s: seq<DlNode<T>>): (c: seq<DlNode<T>>)
    ensures |c| == |s| + 2
  {
    [head] + s + [head]
  }

  ghost predicate Distinct<T(0)>(s: seq<DlNode<T>>) {
    forall i, j :: 0 <= i < j < |s| ==> s[i] != s[j]
  }

  /** Each node of the trip points to its neighbours. */
  ghost predicate Linked<T(0)>(c: seq<DlNode<T>>)
    reads c
  {
    forall i, j :: 0 <= i && j == i + 1 && j < |c| ==> c[i].pNext == c[j] && c[j].pPrev == c[i]
  }

  /** The list with head `head` holds exactly the nodes `s`, in this order. */
  ghost predicate IsList<T(0)>(head: DlNode<T>, s: seq<DlNode<T>>)
    reads head, s
  {
    head !in s && Distinct(s) && Linked(Trip(head, s))
  }

  /** Two lists that share no node. */
  ghost predicate Apart<T(0)>(h: DlNode<T>, s: seq<DlNode<T>>, g: DlNode<T>, t: seq<DlNode<T>>) {
    h != g && h !in t && g !in s && forall i, j :: 0 <= i < |s| && 0 <= j < |t| ==> s[i] != t[j]
  }

  /** DL_LIST_IS_EMPTY: both pointers of the head decide emptiness. */
  predicate Empty<T(0)>(head: DlNode<T>)
    reads head
  {
    head.pPrev == head && head.pNext == head
  }

  lemma EmptyIffNoMembers<T(0)>(head: DlNode<T>, s: seq<DlNode<T>>)
    requires IsList(head, s)
    ensures Empty(head) <==> s == []
    ensures head.pNext == (if s == [] then head else s[0])
    ensures head.pPrev == (if s == [] then head else s[|s| - 1])
  {
    var c := Trip(head, s);
    assert c[0].pNext == c[1] && c[|s| + 1].pPrev == c[|s|];
  }

  lemma MembersDiffer<T(0)>(head: DlNode<T>, s: seq<DlNode<T>>)
    requires IsList(head, s)
    ensures head !in s
  {
  }

  /** A ring determines the order of its members: no two different sequences
    * describe the same pointers. */
  lemma {:induction false} ListIsUnique<T(0)>(head: DlNode<T>, s: seq<DlNode<T>>, t: seq<DlNode<T>>)
    requires IsList(head, s) && IsList(head, t) && |s| <= |t|
    ensures s == t
  {
    var c, d := Trip(head, s), Trip(head, t);
    var k := 0;
    while k < |s|
      invariant 0 <= k <= |s|
      invariant forall i :: 0 <= i <= k ==> c[i] == d[i]
    {
      assert c[k].pNext == c[k + 1] && d[k].pNext == d[k + 1];
      k := k + 1;
    }
    assert c[k].pNext == c[k + 1] && d[k].pNext == d[k + 1];
    assert forall i :: 0 <= i < |s| ==> s[i] == c[i + 1] == d[i + 1] == t[i];
    if |s| < |t| {
      assert false;
    }
  }

  /** dl_list_insert_tail */
  method InsertTail<T(0)>(pList: DlNode<T>, pAdd: DlNode<T>, ghost s: seq<DlNode<T>>)
    requires IsList(pList, s) && pAdd != pList && pAdd !in s
    modifies pList`pPrev, pList`pNext, s`pPrev, s`pNext, pAdd`pPrev, pAdd`pNext
    ensures IsList(pList, s + [pAdd])
  {
    EmptyIffNoMembers(pList, s);
    ghost var c := Trip(pList, s);
    pAdd.pPrev := pList.pPrev;
    pAdd.pNext := pList;
    if pList.pPrev != null {
      pList.pPrev.pNext := pAdd;
    }
    pList.pPrev := pAdd;
    ghost var d := Trip(pList, s + [pAdd]);
    assert forall i :: 0 <= i <= |s| ==> d[i] == c[i];
    assert d[|s| + 1] == pAdd && d[|s| + 2] == pList;
  }

  /** dl_list_insert_head */
  method InsertHead<T(0)>(pList: DlNode<T>, pAdd: DlNode<T>, ghost s: seq<DlNode<T>>)
    requires IsList(pList, s) && pAdd != pList && pAdd !in s
    modifies pList`pPrev, pList`pNext, s`pPrev, s`pNext, pAdd`pPrev, pAdd`pNext
    ensures IsList(pList, [pAdd] + s)
  {
    EmptyIffNoMembers(pList, s);
    ghost var c := Trip(pList, s);
    pAdd.pPrev := pList;
    pAdd.pNext := pList.pNext;
    pList.pNext.pPrev := pAdd;
    pList.pNext := pAdd;
    ghost var d := Trip(pList, [pAdd] + s);
    assert forall i :: 2 <= i < |d| ==> d[i] == c[i - 1];
    assert d[0] == pList && d[1] == pAdd;
  }

  /** The node behind a pointer, if there is one. */
  ghost function NodeSet<T(0)>(p: DlNode?<T>): set<DlNode<T>> {
    if p == null then {} else {p}
  }

  /** dl_list_remove: joins the neighbours and leaves the node pointing to itself.
    * On a node that already points to itself nothing changes, so removing a
    * node twice is the same as removing it once. */
  method Remove<T(0)>(pDel: DlNode<T>)
    requires pDel.pNext == pDel <==> pDel.pPrev == pDel
    modifies pDel`pPrev, pDel`pNext, NodeSet(pDel.pNext)`pPrev, NodeSet(pDel.pPrev)`pNext
    ensures pDel.pNext == pDel && pDel.pPrev == pDel
    ensures var n := old(pDel.pNext); n != null && n != pDel ==> n.pPrev == old(pDel.pPrev)
    ensures var p := old(pDel.pPrev); p != null && p != pDel ==> p.pNext == old(pDel.pNext)
    ensures old(pDel.pNext) == pDel ==> unchanged(pDel)
  {
    if pDel.pNext != null {
      pDel.pNext.pPrev := pDel.pPrev;
    }
    if pDel.pPrev != null {
      pDel.pPrev.pNext := pDel.pNext;
    }
    pDel.pNext := pDel;
    pDel.pPrev := pDel;
  }

  /** dl_list_remove on a member of a list takes exactly that node out. */
  method RemoveMember<T(0)>(pDel: DlNode<T>, ghost head: DlNode<T>, ghost s: seq<DlNode<T>>, ghost k: nat)
    requires IsList(head, s) && k < |s| && s[k] == pDel
    modifies head`pPrev, head`pNext, s`pPrev, s`pNext
    ensures IsList(head, s[..k] + s[k + 1..])
    ensures pDel.pNext == pDel && pDel.pPrev == pDel
  {
    ghost var c := Trip(head, s);
    assert c[k + 1] == pDel && c[k].pNext == pDel && pDel.pNext == c[k + 2] && pDel.pPrev == c[k];
    Remove(pDel);
    ghost var d := Trip(head, s[..k] + s[k + 1..]);
    assert forall i :: 0 <= i <= k ==> d[i] == c[i];
    assert forall i :: k + 1 <= i < |d| ==> d[i] == c[i + 1];
  }

  /** dl_list_remove_item_from_head */
  method RemoveItemFromHead<T(0)>(pList: DlNode<T>, ghost s: seq<DlNode<T>>) returns (pItem: DlNode?<T>)
    requires IsList(pList, s)
    modifies pList`pPrev, pList`pNext, s`pPrev, s`pNext
    ensures s == [] ==> pItem == null && IsList(pList, [])
    ensures s != [] ==> pItem == s[0] && IsList(pList, s[1..])
    ensures pItem != null ==> pItem.pNext == pItem && pItem.pPrev == pItem
  {
    hide IsList;
    EmptyIffNoMembers(pList, s);
    MembersDiffer(pList, s);
    pItem := null;
    if pList.pNext != pList {
      pItem := pList.pNext;
      RemoveMember(pItem, pList, s, 0);
      assert s[..0] + s[1..] == s[1..];
    }
  }

  /** dl_list_remove_item_from_tail */
  method RemoveItemFromTail<T(0)>(pList: DlNode<T>, ghost s: seq<DlNode<T>>) returns (pItem: DlNode?<T>)
    requires IsList(pList, s)
    modifies pList`pPrev, pList`pNext, s`pPrev, s`pNext
    ensures s == [] ==> pItem == null && IsList(pList, [])
    ensures s != [] ==> pItem == s[|s| - 1] && IsList(pList, s[..|s| - 1])
    ensures pItem != null ==> pItem.pNext == pItem && pItem.pPrev == pItem
  {
    hide IsList;
    EmptyIffNoMembers(pList, s);
    MembersDiffer(pList, s);
    pItem := null;
    if pList.pPrev != pList {
      pItem := pList.pPrev;
      RemoveMember(pItem, pList, s, |s| - 1);
      assert s[..|s| - 1] + s[|s|..] == s[..|s| - 1];
    }
  }

  /** dl_list_transfer_items_to_tail */
  method TransferToTail<T(0)>(pDest: DlNode<T>, pSrc: DlNode<T>, ghost s: seq<DlNode<T>>, ghost t: seq<DlNode<T>>)
    requires IsList(pDest, s) && IsList(pSrc, t)
    requires Apart(pDest, s, pSrc, t)
    modifies pDest`pPrev, pDest`pNext, s`pPrev, s`pNext, pSrc`pPrev, pSrc`pNext, t`pPrev, t`pNext
    ensures IsList(pDest, s + t) && IsList(pSrc, [])
  {
    EmptyIffNoMembers(pDest, s);
    EmptyIffNoMembers(pSrc, t);
    if !Empty(pSrc) {
      ghost var c, d := Trip(pDest, s), Trip(pSrc, t);
      pSrc.pPrev.pNext := pDest;
      pSrc.pNext.pPrev := pDest.pPrev;
      pDest.pPrev.pNext := pSrc.pNext;
      pDest.pPrev := pSrc.pPrev;
      pSrc.pPrev := pSrc;
      pSrc.pNext := pSrc;
      ghost var e := Trip(pDest, s + t);
      assert forall i :: 0 <= i <= |s| ==> e[i] == c[i];
      assert forall i :: |s| < i <= |s| + |t| ==> e[i] == d[i - |s|];
      forall i, j | 0 <= i && j == i + 1 && j < |e| ensures e[i].pNext == e[j] && e[j].pPrev == e[i] {
        if j <= |s| {
          assert old(c[i].pNext) == c[j] && old(c[j].pPrev) == c[i];
        } else if |s| < i && j <= |s| + |t| {
          assert old(d[i - |s|].pNext) == d[j - |s|] && old(d[j - |s|].pPrev) == d[i - |s|];
        }
      }
    } else {
      assert s + t == s;
    }
  }

  /** dl_list_transfer_items_to_head */
  method TransferToHead<T(0)>(pDest: DlNode<T>, pSrc: DlNode<T>, ghost s: seq<DlNode<T>>, ghost t: seq<DlNode<T>>)
    requires IsList(pDest, s) && IsList(pSrc, t)
    requires Apart(pDest, s, pSrc, t)
    modifies pDest`pPrev, pDest`pNext, s`pPrev, s`pNext, pSrc`pPrev, pSrc`pNext, t`pPrev, t`pNext
    ensures IsList(pDest, t + s) && IsList(pSrc, [])
  {
    EmptyIffNoMembers(pDest, s);
    EmptyIffNoMembers(pSrc, t);
    if !Empty(pSrc) {
      ghost var c, d := Trip(pDest, s), Trip(pSrc, t);
      pSrc.pNext.pPrev := pDest;
      pDest.pNext.pPrev := pSrc.pPrev;
      pSrc.pPrev.pNext := pDest.pNext;
      pDest.pNext := pSrc.pNext;
      pSrc.pPrev := pSrc;
      pSrc.pNext := pSrc;
      ghost var e := Trip(pDest, t + s);
      assert forall i :: 0 <= i <= |t| ==> e[i] == if i == 0 then pDest else d[i];
      assert forall i :: |t| < i < |e| ==> e[i] == c[i - |t|];
      forall i, j | 0 <= i && j == i + 1 && j < |e| ensures e[i].pNext == e[j] && e[j].pPrev == e[i] {
        if 0 < i && j <= |t| {
          assert old(d[i].pNext) == d[j] && old(d[j].pPrev) == d[i];
        } else if |t| < i {
          assert old(c[i - |t|].pNext) == c[j - |t|] && old(c[j - |t|].pPrev) == c[i - |t|];
        }
      }
    } else {
      assert t + s == s;
    }
  }
}
