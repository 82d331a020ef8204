/** Fitting an array of structures to the structure size a receiver expects
  * (wmitlv_check_and_pad_tlvs of core/wmi/wmi_tlv_helper.c).
  *
  * An array holds `n` elements of `s` bytes each; the receiver wants `e` bytes.
  * One build of the code copies the elements to new memory, the other moves them
  * about inside the receive buffer.  All variants are proved to compute Padded. */
module TlvPad {
  import opened Bytes

  // ---------- what padding means ----------

  function Zeros(n: nat): (z: seq<byte>)
    ensures |z| == n && forall k :: 0 <= k < n ==> z[k] == 0
  {
    seq(n, _ => 0)
  }

  /** One element cut or zero-extended to `e` bytes. */
  function Resize(elem: seq<byte>, e: nat): (r: seq<byte>)
    ensures |r| == e
    ensures forall k :: 0 <= k < e ==> r[k] == if k < |elem| then elem[k] else 0
  {
    if |elem| >= e then elem[..e] else elem + Zeros(e - |elem|)
  }

  /** The size of `n` elements. */
  function Span(n: nat, size: nat): nat {
    n * size
  }

  /** How many whole elements there are. */
  function Elements(len: nat, size: nat): nat
    requires size > 0
  {
    len / size
  }

  lemma SpanMore(n: nat, size: nat)
    ensures Span(0, size) == 0
    ensures n >= 1 ==> Span(n, size) == size + Span(n - 1, size)
  {
  }

  /** The first `n` elements of `v`, each resized. */
  function Padded(v: seq<byte>, s: nat, e: nat, n: nat): (r: seq<byte>)
    requires Span(n, s) <= |v|
    ensures |r| == Span(n, e)
    decreases n
  {
    SpanMore(n, s);
    SpanMore(n, e);
    if n == 0 then [] else Resize(v[..s], e) + Padded(v[s..], s, e, n - 1)
  }

  /** Element by element: there are n of them, in order, and each is the first
    * min(s, e) bytes of its original, zero-extended. */
  lemma {:induction false} PaddedAt(v: seq<byte>, s: nat, e: nat, n: nat, k: nat)
    requires Span(n, s) <= |v| && k < n
    ensures Span(k, e) + e <= Span(n, e) && Span(k, s) + s <= |v|
    ensures Padded(v, s, e, n)[Span(k, e)..Span(k, e) + e] == Resize(v[Span(k, s)..Span(k, s) + s], e)
    decreases n
  {
    hide Resize, Span;
    SpanMore(n, s);
    SpanMore(n, e);
    SpanMore(k, s);
    SpanMore(k, e);
    var first, rest := Resize(v[..s], e), Padded(v[s..], s, e, n - 1);
    if k == 0 {
      assert (first + rest)[..e] == first;
    } else {
      var i, j := Span(k - 1, s), Span(k - 1, e);
      PaddedAt(v[s..], s, e, n - 1, k - 1);
      assert v[s..][i..i + s] == v[s + i..s + i + s];
      assert (first + rest)[e + j..e + j + e] == rest[j..j + e];
    }
  }

  lemma PaddedCons(first: seq<byte>, rest: seq<byte>, s: nat, e: nat, n: nat)
    requires n >= 1 && |first| == s && Span(n - 1, s) <= |rest|
    ensures Span(n, s) <= s + |rest|
    ensures Padded(first + rest, s, e, n) == Resize(first, e) + Padded(rest, s, e, n - 1)
  {
    hide Resize, Span;
    SpanMore(n, s);
    assert (first + rest)[..s] == first && (first + rest)[s..] == rest;
  }

  /** Growing loses nothing: cutting back gives the original elements. */
  lemma {:induction false} GrowThenShrink(v: seq<byte>, s: nat, e: nat, n: nat)
    requires Span(n, s) <= |v| && s <= e
    ensures Padded(Padded(v, s, e, n), e, s, n) == v[..Span(n, s)]
    decreases n
  {
    hide Resize, Span;
    SpanMore(n, s);
    if n > 0 {
      var first, rest := Resize(v[..s], e), Padded(v[s..], s, e, n - 1);
      GrowThenShrink(v[s..], s, e, n - 1);
      PaddedCons(first, rest, e, s, n);
      assert Resize(first, s) == v[..s];
      assert v[..s] + v[s..][..Span(n - 1, s)] == v[..Span(n, s)];
    }
  }

  /** One element off the front, after `done`. */
  lemma PaddedStep(v: seq<byte>, s: nat, e: nat, n: nat, done: seq<byte>)
    requires n >= 1 && Span(n, s) <= |v|
    ensures s <= |v| && Span(n - 1, s) <= |v| - s
    ensures done + Padded(v, s, e, n) == (done + Resize(v[..s], e)) + Padded(v[s..], s, e, n - 1)
  {
    hide Resize, Span;
    SpanMore(n, s);
  }

  lemma PaddedNone(v: seq<byte>, s: nat, e: nat)
    ensures Span(0, s) == 0 && Padded(v, s, e, 0) == []
  {
  }

  lemma Quotient(len: nat, size: nat)
    requires size > 0
    ensures Span(Elements(len, size), size) <= len < Span(Elements(len, size), size) + size
  {
  }

  // ---------- memory ----------

  /** `A` with `piece` written over it at `dst`. */
  function Patched(A: seq<byte>, dst: nat, piece: seq<byte>): (B: seq<byte>)
    requires dst + |piece| <= |A|
    ensures |B| == |A|
    ensures forall k :: 0 <= k < |A| ==> B[k] == if dst <= k < dst + |piece| then piece[k - dst] else A[k]
  {
    A[..dst] + piece + A[dst + |piece|..]
  }

  /** wmi_tlv_OS_MEMMOVE: the regions may overlap. */
  method MemMove(a: array<byte>, dst: nat, src: nat, len: nat)
    requires dst + len <= a.Length && src + len <= a.Length
    modifies a
    ensures a[..] == Patched(old(a[..]), dst, old(a[..])[src..src + len])
  {
    forall k | 0 <= k < len {
      a[dst + k] := a[src + k];
    }
  }

  /** wmi_tlv_OS_MEMZERO */
  method MemZero(a: array<byte>, dst: nat, len: nat)
    requires dst + len <= a.Length
    modifies a
    ensures a[..] == Patched(old(a[..]), dst, Zeros(len))
  {
    forall k | 0 <= k < len {
      a[dst + k] := 0;
    }
  }

  /** wmi_tlv_OS_MEMCPY between two buffers. */
  method MemCopy(to: array<byte>, dst: nat, from: array<byte>, src: nat, len: nat)
    requires to != from && dst + len <= to.Length && src + len <= from.Length
    modifies to
    ensures to[..] == Patched(old(to[..]), dst, from[..][src..src + len])
  {
    forall k | 0 <= k < len {
      to[dst + k] := from[src + k];
    }
  }

  // ---------- the two memory variants ----------

  /** The copy of one element into zeroed memory (643-664). */
  method CopyElement(to: array<byte>, dst: nat, from: array<byte>, src: nat, in_tlv_len: nat, struct_size: nat)
    requires to != from && dst + struct_size <= to.Length && src + in_tlv_len <= from.Length
    requires forall k :: dst <= k < dst + struct_size ==> to[..][k] == 0
    modifies to
    ensures to[..][..dst + struct_size] == old(to[..])[..dst] + Resize(from[..][src..src + in_tlv_len], struct_size)
    ensures forall k :: dst + struct_size <= k < to.Length ==> to[..][k] == old(to[..])[k]
  {
    var n := if in_tlv_len > struct_size then struct_size else in_tlv_len;
    MemCopy(to, dst, from, src, n);
  }

  /** Midway through the copying loop: `p` bytes of `B` are final, the others zero. */
  ghost predicate Copying(B: seq<byte>, p: nat, goal: seq<byte>, v: seq<byte>, q: nat, s: nat, e: nat, m: nat) {
    && q + Span(m, s) <= |v| && p + Span(m, e) == |B|
    && B[..p] + Padded(v[q..], s, e, m) == goal
    && forall k :: p <= k < |B| ==> B[k] == 0
  }

  lemma CopyingEnds(B: seq<byte>, p: nat, goal: seq<byte>, v: seq<byte>, q: nat, s: nat, e: nat, n: nat)
    ensures |B| == Span(n, e) && Span(n, s) <= |v| && (forall k :: 0 <= k < |B| ==> B[k] == 0) ==>
      Copying(B, 0, Padded(v, s, e, n), v, 0, s, e, n)
    ensures Copying(B, p, goal, v, q, s, e, 0) ==> B == goal
  {
    hide Padded, Span;
    assert v[0..] == v && B[..0] == [] && B[..|B|] == B;
    SpanMore(0, e);
    if Copying(B, p, goal, v, q, s, e, 0) {
      PaddedNone(v[q..], s, e);
    }
  }

  lemma CopyingRoom(B: seq<byte>, p: nat, goal: seq<byte>, v: seq<byte>, q: nat, s: nat, e: nat, m: nat)
    requires Copying(B, p, goal, v, q, s, e, m) && m >= 1
    ensures p + e <= |B| && q + s <= |v| && forall k :: p <= k < |B| ==> B[k] == 0
  {
    SpanMore(m, s);
    SpanMore(m, e);
  }

  lemma CopyingStep(B: seq<byte>, C: seq<byte>, p: nat, goal: seq<byte>, v: seq<byte>, q: nat, s: nat, e: nat, m: nat)
    requires Copying(B, p, goal, v, q, s, e, m) && m >= 1
    requires q + s <= |v| && |C| == |B| && p + e <= |B|
    requires C[..p + e] == B[..p] + Resize(v[q..q + s], e)
    requires forall k :: p + e <= k < |B| ==> C[k] == B[k]
    ensures Copying(C, p + e, goal, v, q + s, s, e, m - 1)
  {
    hide Padded, Span, Resize;
    SpanMore(m, s);
    SpanMore(m, e);
    PaddedStep(v[q..], s, e, m, B[..p]);
    assert v[q..][..s] == v[q..q + s] && v[q..][s..] == v[q + s..];
  }

  /** The variant with dynamic memory (624-664): copy to a new, zeroed buffer. */
  method PadByCopy(buf: array<byte>, buf_ptr: nat, curr_tlv_len: nat, in_tlv_len: nat, struct_size: nat)
    returns (new_tlv_buf: array<byte>)
    requires buf_ptr + curr_tlv_len <= buf.Length && in_tlv_len > 0
    ensures var v, n := buf[..][buf_ptr..buf_ptr + curr_tlv_len], Elements(curr_tlv_len, in_tlv_len);
      Span(n, in_tlv_len) <= |v| && new_tlv_buf[..] == Padded(v, in_tlv_len, struct_size, n)
  {
    hide Resize, Padded, Span, Elements, Zeros, Copying;
    var num_of_elems := Elements(curr_tlv_len, in_tlv_len);
    ghost var v, s, e, n := buf[..][buf_ptr..buf_ptr + curr_tlv_len], in_tlv_len, struct_size, num_of_elems;
    Quotient(curr_tlv_len, s);
    ghost var goal := Padded(v, s, e, n);
    new_tlv_buf := new byte[Span(num_of_elems, struct_size)];
    MemZero(new_tlv_buf, 0, new_tlv_buf.Length);
    var tlv_buf_ptr, src, i := 0, 0, 0;
    CopyingEnds(new_tlv_buf[..], 0, goal, v, 0, s, e, n);
    while i < num_of_elems
      invariant 0 <= i <= n && 0 <= src && 0 <= tlv_buf_ptr
      invariant Copying(new_tlv_buf[..], tlv_buf_ptr, goal, v, src, s, e, n - i)
    {
      ghost var B := new_tlv_buf[..];
      CopyingRoom(B, tlv_buf_ptr, goal, v, src, s, e, n - i);
      assert v[src..src + s] == buf[..][buf_ptr + src..buf_ptr + src + s];
      CopyElement(new_tlv_buf, tlv_buf_ptr, buf, buf_ptr + src, in_tlv_len, struct_size);
      CopyingStep(B, new_tlv_buf[..], tlv_buf_ptr, goal, v, src, s, e, n - i);
      tlv_buf_ptr := tlv_buf_ptr + struct_size;
      src := src + in_tlv_len;
      i := i + 1;
    }
    CopyingEnds(new_tlv_buf[..], tlv_buf_ptr, goal, v, src, s, e, n);
  }

  /** Midway through the in-place loops.  `p` bytes of `A` are final, the `m` elements
    * still to be fitted, `v` from offset `q` on, start at `p`; together they make
    * up `goal`. */
  ghost predicate Midway(A: seq<byte>, p: nat, goal: seq<byte>, v: seq<byte>, q: nat, s: nat, e: nat, m: nat) {
    && q <= |v| && Span(m, s) <= |v| - q && p <= |A|
    && A[..p] + Padded(v[q..], s, e, m) == goal
    && (m >= 1 ==> p + |v| - q <= |A| && A[p..p + |v| - q] == v[q..])
  }

  lemma MidwayStart(A: seq<byte>, p: nat, v: seq<byte>, s: nat, e: nat, n: nat)
    requires p + |v| <= |A| && A[p..p + |v|] == v && Span(n, s) <= |v|
    ensures Midway(A, p, A[..p] + Padded(v, s, e, n), v, 0, s, e, n)
  {
    assert v[0..] == v;
  }

  lemma MidwayEnd(A: seq<byte>, p: nat, goal: seq<byte>, v: seq<byte>, q: nat, s: nat, e: nat)
    requires Midway(A, p, goal, v, q, s, e, 0)
    ensures A[..p] == goal
  {
    PaddedNone(v[q..], s, e);
  }

  /** `B` is `A` after the element at `p` was fitted: what follows it, `rest` bytes, now
    * starts right behind the fitted element, and everything beyond is as it was. */
  ghost predicate Fitted(A: seq<byte>, B: seq<byte>, p: nat, s: nat, e: nat, rest: nat) {
    && |A| == |B| && p + s + rest <= |A| && p + e + rest <= |A|
    && B[..p + e] == A[..p] + Resize(A[p..p + s], e)
    && (rest > 0 ==> B[p + e..p + e + rest] == A[p + s..p + s + rest])
  }

  /** `B` is `A` after the moves of the growing loop for the element at `p`. */
  ghost predicate Grown(A: seq<byte>, B: seq<byte>, p: nat, s: nat, e: nat, rest: nat) {
    && s <= e && p + e + rest <= |A| == |B|
    && (forall k :: 0 <= k < p + s ==> B[k] == A[k])
    && (forall k :: p + s <= k < p + e ==> B[k] == 0)
    && (forall k :: p + e <= k < p + e + rest ==> B[k] == A[k - e + s])
    && (forall k :: p + e + rest <= k < |A| ==> B[k] == A[k])
  }

  lemma GrownByMoves(A: seq<byte>, B: seq<byte>, p: nat, s: nat, e: nat, rest: nat)
    requires s <= e && p + e + rest <= |A|
    requires B == Patched(Patched(A, p + e, A[p + s..p + s + rest]), p + s, Zeros(e - s))
    ensures Grown(A, B, p, s, e, rest)
  {
    hide Patched, Zeros;
    var piece, zeros := A[p + s..p + s + rest], Zeros(e - s);
    var A1 := Patched(A, p + e, piece);
    forall k | p + e <= k < p + e + rest ensures B[k] == A[k - e + s] {
      assert A1[k] == piece[k - (p + e)];
    }
  }

  /** The element, with everything in front of it. */
  lemma GrownFits(A: seq<byte>, B: seq<byte>, p: nat, s: nat, e: nat, rest: nat)
    requires Grown(A, B, p, s, e, rest)
    ensures B[..p + e] == A[..p] + Resize(A[p..p + s], e)
  {
    var r := A[..p] + Resize(A[p..p + s], e);
    assert |r| == p + e;
    forall k | 0 <= k < p + e ensures B[k] == r[k] {
      if k >= p {
        assert r[k] == Resize(A[p..p + s], e)[k - p];
      }
    }
  }

  lemma GrownMoves(A: seq<byte>, B: seq<byte>, p: nat, s: nat, e: nat, rest: nat)
    requires Grown(A, B, p, s, e, rest)
    ensures B[p + e..p + e + rest] == A[p + s..p + s + rest]
  {
    var x, y := B[p + e..p + e + rest], A[p + s..p + s + rest];
    forall k | 0 <= k < rest ensures x[k] == y[k] {
      assert B[p + e + k] == A[p + e + k - e + s];
    }
  }

  lemma GrownKeeps(A: seq<byte>, B: seq<byte>, p: nat, s: nat, e: nat, rest: nat)
    requires Grown(A, B, p, s, e, rest)
    ensures SameFrom(A, B, p + e + rest)
  {
  }

  /** How the moves of the growing and of the shrinking loop fit an element. */
  lemma FittedByGrowing(A: seq<byte>, B: seq<byte>, p: nat, s: nat, e: nat, rest: nat)
    requires s <= e && p + e + rest <= |A|
    requires B == Patched(Patched(A, p + e, A[p + s..p + s + rest]), p + s, Zeros(e - s))
    ensures Fitted(A, B, p, s, e, rest) && SameFrom(A, B, p + e + rest)
  {
    hide Grown, Patched, Zeros, Resize, SameFrom;
    GrownByMoves(A, B, p, s, e, rest);
    GrownFits(A, B, p, s, e, rest);
    GrownMoves(A, B, p, s, e, rest);
    GrownKeeps(A, B, p, s, e, rest);
  }

  lemma FittedByShrinking(A: seq<byte>, B: seq<byte>, p: nat, s: nat, e: nat, rest: nat)
    requires e <= s && p + s + rest <= |A|
    requires B == Patched(A, p + e, A[p + s..p + s + rest])
    ensures Fitted(A, B, p, s, e, rest) && SameFrom(A, B, p + e + rest)
  {
    assert B[..p + e] == A[..p] + Resize(A[p..p + s], e);
  }

  /** Nothing changes from position `k` on. */
  ghost predicate SameFrom(A: seq<byte>, B: seq<byte>, k: nat) {
    |A| == |B| && k <= |A| && A[k..] == B[k..]
  }

  lemma SameFromLess(A: seq<byte>, B: seq<byte>, k: nat, m: nat)
    requires SameFrom(A, B, k) && k <= m <= |A|
    ensures SameFrom(A, B, m)
  {
    assert A[m..] == A[k..][m - k..] && B[m..] == B[k..][m - k..];
  }

  lemma NothingMoved(A: seq<byte>, dst: nat, piece: seq<byte>)
    requires dst <= |A| && piece == []
    ensures Patched(A, dst, piece) == A
  {
  }

  lemma SameFromMore(A: seq<byte>, B: seq<byte>, C: seq<byte>, k: nat, m: nat)
    requires SameFrom(A, B, m) && SameFrom(B, C, k) && k <= m
    ensures SameFrom(A, C, m)
  {
    assert B[m..] == B[k..][m - k..] && C[m..] == C[k..][m - k..];
  }

  lemma SameFromItself(A: seq<byte>, k: nat)
    requires k <= |A|
    ensures SameFrom(A, A, k)
  {
  }

  /** Fitting one element. */
  lemma MidwayStep(A: seq<byte>, B: seq<byte>, p: nat, goal: seq<byte>, v: seq<byte>, q: nat, s: nat, e: nat, m: nat, rest: nat)
    requires Midway(A, p, goal, v, q, s, e, m) && m >= 1
    requires Fitted(A, B, p, s, e, rest) && (m >= 2 ==> rest == |v| - q - s)
    ensures Midway(B, p + e, goal, v, q + s, s, e, m - 1)
  {
    hide Resize, Padded, Span;
    PaddedStep(v[q..], s, e, m, A[..p]);
    assert A[p..p + |v| - q][..s] == A[p..p + s];
    assert A[p..p + |v| - q][s..] == A[p + s..p + |v| - q];
    assert v[q..][s..] == v[q + s..];
  }

  /** `p` is where fitted element `i` of `n` goes. */
  ghost predicate At(base: nat, p: nat, s: nat, e: nat, n: nat, i: nat) {
    i <= n && p == base + Span(i, e)
  }

  lemma AtStart(base: nat, s: nat, e: nat, n: nat)
    ensures At(base, base, s, e, n, 0) && Span(0, s) == 0
  {
  }

  lemma AtEnd(base: nat, p: nat, s: nat, e: nat, n: nat)
    requires At(base, p, s, e, n, n)
    ensures p == base + Span(n, e)
  {
  }

  /** Element `i` lies inside the original array, and its new place, with all
    * originals behind it, inside the grown one. */
  lemma AtStep(base: nat, p: nat, s: nat, e: nat, n: nat, i: nat)
    requires i < n && At(base, p, s, e, n, i)
    ensures At(base, p + e, s, e, n, i + 1) && p + e <= base + Span(n, e)
    ensures Span(i + 1, s) == Span(i, s) + s && Span(i + 1, s) <= Span(n, s)
    ensures s <= e ==> p + e + Span(n, s) - Span(i + 1, s) <= base + Span(n, s) + Span(n, e - s)
    ensures e <= s ==> p + e <= base + Span(i + 1, s)
    ensures e <= s ==> p <= base + Span(i, s)
  {
    SpanMonotone(i + 1, n, s);
    SpanMonotone(i + 1, n, e);
    if s <= e {
      SpanMonotone(i + 1, n, e - s);
      SpanSum(i + 1, s, e - s);
    } else {
      SpanSum(i + 1, e, s - e);
      SpanSum(i, e, s - e);
    }
  }

  lemma SpanMonotone(i: nat, n: nat, size: nat)
    requires i <= n
    ensures Span(i, size) <= Span(n, size)
  {
    assert (n - i) * size >= 0;
  }

  lemma SpanSum(n: nat, s: nat, d: nat)
    ensures Span(n, s + d) == Span(n, s) + Span(n, d)
  {
  }

  /** One turn of the growing loop (696-723): the elements behind move down, and the
    * gap is zeroed.  The last element has none behind it that need to move. */
  method GrowElement(a: array<byte>, tlv_buf_ptr: nat, in_tlv_len: nat, num_padding_bytes: nat, buf_mov_len: nat, last: bool)
    requires tlv_buf_ptr + in_tlv_len + num_padding_bytes + buf_mov_len <= a.Length
    modifies a
    ensures var e := in_tlv_len + num_padding_bytes;
      && Fitted(old(a[..]), a[..], tlv_buf_ptr, in_tlv_len, e, if last then 0 else buf_mov_len)
      && SameFrom(old(a[..]), a[..], tlv_buf_ptr + e + buf_mov_len)
  {
    hide Fitted, SameFrom, Patched;
    ghost var A, e := a[..], in_tlv_len + num_padding_bytes;
    var src_addr := tlv_buf_ptr + in_tlv_len;
    if !last {
      var dst_addr := tlv_buf_ptr + in_tlv_len + num_padding_bytes;
      MemMove(a, dst_addr, src_addr, buf_mov_len);
    }
    MemZero(a, src_addr, num_padding_bytes);
    if last {
      NothingMoved(A, tlv_buf_ptr + e, A[src_addr..src_addr]);
    }
    ghost var rest := if last then 0 else buf_mov_len;
    FittedByGrowing(A, a[..], tlv_buf_ptr, in_tlv_len, e, rest);
    SameFromLess(A, a[..], tlv_buf_ptr + e + rest, tlv_buf_ptr + e + buf_mov_len);
  }

  /** The growing loop; what lies behind the grown array is not touched. */
  method GrowElements(a: array<byte>, buf_ptr: nat, curr_tlv_len: nat, in_tlv_len: nat, struct_size: nat, num_of_elems: nat)
    requires 0 < in_tlv_len < struct_size && Span(num_of_elems, in_tlv_len) <= curr_tlv_len
    requires buf_ptr + curr_tlv_len + Span(num_of_elems, struct_size - in_tlv_len) <= a.Length
    modifies a
    ensures var A, B, n := old(a[..]), a[..], num_of_elems;
      && buf_ptr + Span(n, struct_size) <= a.Length
      && B[..buf_ptr + Span(n, struct_size)] ==
           A[..buf_ptr] + Padded(A[buf_ptr..buf_ptr + curr_tlv_len], in_tlv_len, struct_size, n)
      && SameFrom(A, B, buf_ptr + curr_tlv_len + Span(n, struct_size - in_tlv_len))
  {
    hide Resize, Padded, Span, Elements, Midway, Fitted, SameFrom, At;
    var num_padding_bytes := struct_size - in_tlv_len;
    ghost var A0, s, e, d, n := a[..], in_tlv_len, struct_size, num_padding_bytes, num_of_elems;
    ghost var v, behind := A0[buf_ptr..buf_ptr + curr_tlv_len], buf_ptr + curr_tlv_len + Span(n, d);
    ghost var goal := A0[..buf_ptr] + Padded(v, s, e, n);
    var tlv_buf_ptr, i := buf_ptr, 0;
    MidwayStart(A0, buf_ptr, v, s, e, n);
    SameFromItself(A0, behind);
    AtStart(buf_ptr, s, e, n);
    while i < num_of_elems
      invariant 0 <= i <= n && buf_ptr <= tlv_buf_ptr && At(buf_ptr, tlv_buf_ptr, s, e, n, i)
      invariant Midway(a[..], tlv_buf_ptr, goal, v, Span(i, s), s, e, n - i)
      invariant SameFrom(A0, a[..], behind)
    {
      AtStep(buf_ptr, tlv_buf_ptr, s, e, n, i);
      ghost var A, p, rest := a[..], tlv_buf_ptr, curr_tlv_len - Span(i + 1, s);
      GrowElement(a, tlv_buf_ptr, in_tlv_len, num_padding_bytes, curr_tlv_len - Span(i + 1, in_tlv_len), i == num_of_elems - 1);
      MidwayStep(A, a[..], p, goal, v, Span(i, s), s, e, n - i, if i == n - 1 then 0 else rest);
      SameFromMore(A0, A, a[..], p + e + rest, behind);
      tlv_buf_ptr := tlv_buf_ptr + struct_size;
      i := i + 1;
    }
    MidwayEnd(a[..], tlv_buf_ptr, goal, v, Span(n, s), s, e);
    AtEnd(buf_ptr, tlv_buf_ptr, s, e, n);
    SpanSum(n, s, d);
  }

  /** Growing inside the receive buffer (671-729).  There is room for the padding
    * behind the message; what follows the array moves as a whole. */
  method GrowInPlace(a: array<byte>, buf_ptr: nat, curr_tlv_len: nat, in_tlv_len: nat, struct_size: nat, end: nat)
    requires 0 < in_tlv_len < struct_size && buf_ptr + curr_tlv_len <= end
    requires end + Span(Elements(curr_tlv_len, in_tlv_len), struct_size - in_tlv_len) <= a.Length
    modifies a
    ensures var A, B, n := old(a[..]), a[..], Elements(curr_tlv_len, in_tlv_len);
      var after, shift := buf_ptr + curr_tlv_len, Span(n, struct_size - in_tlv_len);
      && Span(n, in_tlv_len) <= curr_tlv_len && buf_ptr + Span(n, struct_size) <= a.Length
      && B[..buf_ptr + Span(n, struct_size)] == A[..buf_ptr] + Padded(A[buf_ptr..after], in_tlv_len, struct_size, n)
      && B[after + shift..end + shift] == A[after..end]
  {
    hide Resize, Padded, Span, Elements, SameFrom;
    var num_of_elems := Elements(curr_tlv_len, in_tlv_len);
    var num_padding_bytes := struct_size - in_tlv_len;
    Quotient(curr_tlv_len, in_tlv_len);
    ghost var A, after, shift := a[..], buf_ptr + curr_tlv_len, Span(num_of_elems, num_padding_bytes);
    MoveFollowing(a, buf_ptr + curr_tlv_len, Span(num_of_elems, num_padding_bytes), end);
    ghost var A1 := a[..];
    SamePrefixSlices(A, A1, buf_ptr, after);
    GrowElements(a, buf_ptr, curr_tlv_len, in_tlv_len, struct_size, num_of_elems);
    FollowingMoved(A, A1, a[..], after, shift, end);
  }

  lemma FollowingMoved(A: seq<byte>, A1: seq<byte>, B: seq<byte>, after: nat, shift: nat, end: nat)
    requires |A| == |A1| && after <= end && end + shift <= |A| && SameFrom(A1, B, after + shift)
    requires A1[after + shift..end + shift] == A[after..end]
    ensures |B| == |A| && B[after + shift..end + shift] == A[after..end]
  {
    hide SameFrom;
    SameFromSlice(A1, B, after + shift, end - after);
  }

  lemma SamePrefixSlices(A: seq<byte>, B: seq<byte>, k: nat, m: nat)
    requires |A| == |B| && k <= m <= |A| && A[..m] == B[..m]
    ensures A[..k] == B[..k] && A[k..m] == B[k..m]
  {
    assert A[..m][..k] == A[..k] && B[..m][..k] == B[..k];
    assert A[..m][k..] == A[k..m] && B[..m][k..] == B[k..m];
  }

  lemma SameFromSlice(A: seq<byte>, B: seq<byte>, k: nat, len: nat)
    requires SameFrom(A, B, k) && k + len <= |A|
    ensures |B| == |A| && A[k..k + len] == B[k..k + len]
  {
    assert A[k..][..len] == A[k..k + len] && B[k..][..len] == B[k..k + len];
  }

  /** The subsequent TLVs move down (677-692). */
  method MoveFollowing(a: array<byte>, src_addr: nat, shift: nat, end: nat)
    requires src_addr <= end && end + shift <= a.Length
    modifies a
    ensures a[..][..src_addr] == old(a[..])[..src_addr]
    ensures a[..][src_addr + shift..end + shift] == old(a[..])[src_addr..end]
  {
    if end > src_addr {
      MemMove(a, src_addr + shift, src_addr, end - src_addr);
    }
  }

  /** The shrinking loop (730-755): the elements behind move up over the surplus.
    * The array has an element. */
  method ShrinkInPlace(a: array<byte>, buf_ptr: nat, curr_tlv_len: nat, in_tlv_len: nat, struct_size: nat)
    requires struct_size < in_tlv_len <= curr_tlv_len && buf_ptr + curr_tlv_len <= a.Length
    modifies a
    ensures var A, B, n := old(a[..]), a[..], Elements(curr_tlv_len, in_tlv_len);
      && Span(n, in_tlv_len) <= curr_tlv_len && buf_ptr + Span(n, struct_size) <= a.Length
      && B[..buf_ptr + Span(n, struct_size)] ==
           A[..buf_ptr] + Padded(A[buf_ptr..buf_ptr + curr_tlv_len], in_tlv_len, struct_size, n)
      && SameFrom(A, B, buf_ptr + curr_tlv_len)
  {
    hide Resize, Padded, Span, Elements, Midway, Fitted, SameFrom, At;
    var num_of_elems := Elements(curr_tlv_len, in_tlv_len);
    ghost var A0, s, e, n := a[..], in_tlv_len, struct_size, num_of_elems;
    ghost var v, behind := A0[buf_ptr..buf_ptr + curr_tlv_len], buf_ptr + curr_tlv_len;
    Quotient(curr_tlv_len, s);
    SpanMore(n, s);
    ghost var goal := A0[..buf_ptr] + Padded(v, s, e, n);
    var tlv_buf_ptr, i := buf_ptr, 0;
    MidwayStart(A0, buf_ptr, v, s, e, n);
    SameFromItself(A0, behind);
    AtStart(buf_ptr, s, e, n);
    while i < num_of_elems - 1
      invariant 0 <= i <= n - 1 && buf_ptr <= tlv_buf_ptr && At(buf_ptr, tlv_buf_ptr, s, e, n, i)
      invariant Midway(a[..], tlv_buf_ptr, goal, v, Span(i, s), s, e, n - i)
      invariant SameFrom(A0, a[..], behind)
    {
      AtStep(buf_ptr, tlv_buf_ptr, s, e, n, i);
      ghost var A, p, rest := a[..], tlv_buf_ptr, curr_tlv_len - Span(i + 1, s);
      ShrinkElement(a, tlv_buf_ptr, in_tlv_len, struct_size, curr_tlv_len - Span(i + 1, in_tlv_len));
      MidwayStep(A, a[..], p, goal, v, Span(i, s), s, e, n - i, rest);
      SameFromMore(A0, A, a[..], p + e + rest, behind);
      tlv_buf_ptr := tlv_buf_ptr + struct_size;
      i := i + 1;
    }
    AtStep(buf_ptr, tlv_buf_ptr, s, e, n, i);
    AtEnd(buf_ptr, tlv_buf_ptr + e, s, e, n);
    LastFits(a[..], tlv_buf_ptr, goal, v, Span(i, s), s, e);
  }

  /** One turn of the shrinking loop. */
  method ShrinkElement(a: array<byte>, tlv_buf_ptr: nat, in_tlv_len: nat, struct_size: nat, buf_mov_len: nat)
    requires struct_size < in_tlv_len && tlv_buf_ptr + in_tlv_len + buf_mov_len <= a.Length
    modifies a
    ensures Fitted(old(a[..]), a[..], tlv_buf_ptr, in_tlv_len, struct_size, buf_mov_len)
    ensures SameFrom(old(a[..]), a[..], tlv_buf_ptr + struct_size + buf_mov_len)
  {
    hide Fitted, SameFrom, Patched;
    ghost var A := a[..];
    var src_addr := tlv_buf_ptr + in_tlv_len;
    var num_padding_bytes := struct_size - in_tlv_len;
    var dst_addr := tlv_buf_ptr + in_tlv_len + num_padding_bytes;
    MemMove(a, dst_addr, src_addr, buf_mov_len);
    FittedByShrinking(A, a[..], tlv_buf_ptr, in_tlv_len, struct_size, buf_mov_len);
  }

  /** The last element needs no move to be cut off. */
  lemma LastFits(A: seq<byte>, p: nat, goal: seq<byte>, v: seq<byte>, q: nat, s: nat, e: nat)
    requires e < s && Midway(A, p, goal, v, q, s, e, 1)
    ensures p + e <= |A| && A[..p + e] == goal
  {
    SpanMore(1, s);
    assert A[..p + e] == A[..p] + Resize(A[p..p + s], e);
    MidwayStep(A, A, p, goal, v, q, s, e, 1, 0);
    MidwayEnd(A, p + e, goal, v, q + s, s, e);
  }
}
