/** All packet queues around one endpoint, and what a critical section that works on
  * some of them leaves alone. */
module TxFamilies {
  import opened DlList
  import opened PacketQueues
  import opened TxModel
  import opened TxQueueOps

  ghost function Heads(queues: set<Queue>): (r: set<Node>)
    ensures forall q :: q in queues ==> q.QueueHead in r
  {
    set q | q in queues :: q.QueueHead
  }

  /** The nodes of some queues. */
  ghost function Pool(queues: set<Queue>): (r: set<Node>)
    reads queues
    ensures forall q :: q in queues ==> Members(q) <= r
  {
    set q, n | q in queues && n in Members(q) :: n
  }

  /** Every queue is well formed, and no two of them share anything. */
  ghost predicate Family(queues: set<Queue>)
    reads queues, Heads(queues), Pool(queues)
  {
    && (forall q :: q in queues ==> q.Loose())
    && (forall a, b :: a in queues && b in queues && a != b ==> Separate(a, b))
  }

  /** What a queue is at some moment. */
  datatype Photo = Photo(nodes: seq<Node>, members: set<Node>, items: seq<Charged>, depth: int, skew: int)
  {
    /** The queue holds this node, with this item. */
    ghost predicate Holds(n: Node, c: Charged) {
      exists k :: 0 <= k < |nodes| && k < |items| && nodes[k] == n && items[k] == c
    }
  }

  ghost function Now(q: Queue): Photo
    reads q, q.Nodes`item
  {
    Photo(q.Nodes, Members(q), Items(q.Nodes), q.Depth, q.Skew)
  }

  type Shot = map<Queue, Photo>

  ghost function Snap(queues: set<Queue>): (r: Shot)
    reads queues, Pool(queues)
    ensures r.Keys == queues && forall q :: q in queues ==> r[q] == Now(q)
  {
    map q | q in queues :: Now(q)
  }

  /** The nodes of all queues at that moment. */
  ghost function PoolOf(was: Shot): (r: set<Node>)
    ensures forall q :: q in was ==> was[q].members <= r
  {
    set q, n | q in was && n in was[q].members :: n
  }

  /** At that moment no two queues shared a node. */
  ghost predicate Spread(queues: set<Queue>, was: Shot) {
    && queues <= was.Keys
    && forall a, b :: a in queues && b in queues && a != b ==>
         a.QueueHead != b.QueueHead && was[a].members !! was[b].members && a.QueueHead !in was[b].members
  }

  lemma FamilySpreads(queues: set<Queue>)
    requires Family(queues)
    ensures Spread(queues, Snap(queues))
  {
    hide Separate, Members;
    forall a, b | a in queues && b in queues && a != b
      ensures a.QueueHead != b.QueueHead && Members(a) !! Members(b) && a.QueueHead !in Members(b)
    {
      SeparateMeans(a, b);
    }
  }

  /** A queue that nobody worked on is apart from one that took its nodes from those
    * worked on, or new ones. */
  lemma OneStays(queues: set<Queue>, touched: set<Queue>, was: Shot, news: set<Node>, a: Queue, b: Queue)
    requires Spread(queues, was) && touched <= queues && a in queues && a !in touched && b in touched
    requires Members(a) == was[a].members && a.QueueHead !in news && news !! was[a].members && b.QueueHead !in was[a].members
    requires forall n :: n in Members(b) ==> n in news || exists c :: c in touched && n in was[c].members
    ensures Separate(a, b) && Separate(b, a)
  {
    hide Separate, Members;
    forall n | n in Members(b) ensures n !in Members(a) && n != a.QueueHead {
      if n !in news {
        var c :| c in touched && n in was[c].members;
      }
    }
    SeparateMeans(a, b);
    SeparateMeans(b, a);
  }

  /** After work on some of the queues, which may bring in new nodes, all of them are a
    * family again. */
  lemma FamilyStays(queues: set<Queue>, touched: set<Queue>, was: Shot, news: set<Node>)
    requires Spread(queues, was) && touched <= queues && Family(touched)
    requires forall q :: q in queues && q !in touched ==> q.Loose() && Members(q) == was[q].members
    requires forall q :: q in queues ==> q.QueueHead !in news && news !! was[q].members
    requires forall q, n :: q in touched && n in Members(q) ==> n in news || exists c :: c in touched && n in was[c].members
    ensures Family(queues)
  {
    hide Separate, Members;
    forall a, b | a in queues && b in queues && a != b ensures Separate(a, b) {
      if a !in touched && b !in touched {
        SeparateMeans(a, b);
      } else if a !in touched {
        OneStays(queues, touched, was, news, a, b);
      } else if b !in touched {
        OneStays(queues, touched, was, news, b, a);
      }
    }
  }

  /** These queues are out of reach of whoever works on those. */
  ghost predicate Aside(others: set<Queue>, touched: set<Queue>)
    reads others, touched, Heads(others), Pool(others)
  {
    forall q, c :: q in others && c in touched ==>
      && q.Loose() && q != c && q.QueueHead != c.QueueHead && Members(q) !! Members(c)
      && q.QueueHead !in Members(c) && c.QueueHead !in Members(q)
  }

  lemma FamilySeparates(queues: set<Queue>, a: Queue, b: Queue)
    requires Family(queues) && a in queues && b in queues && a != b
    ensures Separate(a, b)
  {
  }

  lemma EmptyFamily(queues: set<Queue>)
    requires forall q :: q in queues ==> q.Valid() && q.Nodes == []
    requires forall a, b :: a in queues && b in queues && a != b ==> a.QueueHead != b.QueueHead
    ensures Family(queues)
  {
  }

  lemma EmptyShows(q: Queue)
    requires q.Nodes == []
    ensures Items(q.Nodes) == [] && PacketsOf(q.Nodes) == [] && Members(q) == {}
  {
    NodesInNone();
  }

  lemma PairFamily(a: Queue, b: Queue)
    requires a.Loose() && b.Loose() && Separate(a, b)
    ensures Family({a, b})
  {
    hide Separate;
    SeparateMeans(a, b);
    SeparateMeans(b, a);
  }

  lemma HoldsMeans(q: Queue, n: Node, c: Charged)
    ensures Now(q).Holds(n, c) <==> n in Members(q) && n.item == c
  {
    hide Items;
    if n in Members(q) && n.item == c {
      var k :| 0 <= k < |q.Nodes| && q.Nodes[k] == n;
      assert Now(q).nodes[k] == n && Now(q).items[k] == c;
    }
  }

  lemma OneFamily(a: Queue)
    requires a.Loose()
    ensures Family({a})
  {
  }

  lemma TripleFamily(a: Queue, b: Queue, c: Queue)
    requires a.Loose() && b.Loose() && c.Loose() && Separate(a, b) && Separate(a, c) && Separate(b, c)
    ensures Family({a, b, c})
  {
    hide Separate;
    SeparateMeans(a, b);
    SeparateMeans(b, a);
    SeparateMeans(a, c);
    SeparateMeans(c, a);
    SeparateMeans(b, c);
    SeparateMeans(c, b);
  }
}
