/** The hash chains of deflate: heads by key, and links by position modulo the window size. */
module Chains {
  import opened Bits
  import opened BitStream
  import opened HashKey

  /** The key of the string at p. */
  function KeyAt(bits: nat, s: seq<byte>, p: nat): nat
    requires p + 3 <= |s|
  {
    Key(bits, s[p], s[p + 1], s[p + 2])
  }

  /** i & w_mask, for a window of w bytes. */
  function Slot(i: nat, w: nat): (r: nat)
    requires 0 < w
    ensures r < w
  {
    if i < w then i else Slot(i - w, w)
  }

  /** Positions are counted from the start of the stream; base is that of window index 0, and 0 in
      head and prev ends a chain.  ins holds the positions inserted so far, all below top. */
  ghost predicate Linked(bits: nat, s: seq<byte>, base: nat, head: seq<nat>, prev: seq<nat>, ins: set<nat>, top: nat)
  {
    && |head| == Pow2(bits) && 0 < |prev|
    && (top == 0 || top - 1 in ins)
    && (forall p :: p in ins ==> p < top && p + 3 <= |s|)
    && (forall h :: 0 <= h < |head| ==> Leads(bits, s, base, head[h], h, ins))
    && (forall p :: p in ins && base <= p && top <= p + |prev| ==> Behind(bits, s, base, prev[Slot(p - base, |prev|)], p, ins))
  }

  /** A head of the chain for key h. */
  ghost predicate Leads(bits: nat, s: seq<byte>, base: nat, m: nat, h: nat, ins: set<nat>)
  {
    m != 0 ==> base + m in ins && base + m + 3 <= |s| && KeyAt(bits, s, base + m) == h
  }

  /** A link from p: an earlier string with the same key. */
  ghost predicate Behind(bits: nat, s: seq<byte>, base: nat, m: nat, p: nat, ins: set<nat>)
  {
    m != 0 ==> base + m in ins && base + m < p && p + 3 <= |s| && KeyAt(bits, s, base + m) == KeyAt(bits, s, p)
  }

  lemma {:induction false} SlotsDiffer(i: nat, j: nat, w: nat)
    requires i < j < i + w
    ensures Slot(i, w) != Slot(j, w)
  {
    if w <= i {
      SlotsDiffer(i - w, j - w, w);
    }
  }

  /** INSERT_STRING at window index i. */
  lemma Insert(bits: nat, s: seq<byte>, base: nat, head: seq<nat>, prev: seq<nat>, ins: set<nat>, top: nat, i: nat)
    requires Linked(bits, s, base, head, prev, ins, top) && top <= base + i && base + i + 3 <= |s|
    ensures var h := KeyAt(bits, s, base + i);
            && h < |head|
            && Linked(bits, s, base, head[h := i], prev[Slot(i, |prev|) := head[h]], ins + {base + i}, base + i + 1)
            && Behind(bits, s, base, head[h], base + i, ins)
  {
    hide KeyAt, Pow2, Slot, Leads, Behind;
    var p, h := base + i, KeyAt(bits, s, base + i);
    KeyBound(bits, s, p);
    assert Leads(bits, s, base, head[h], h, ins);
    HeadBehind(bits, s, base, head[h], p, ins);
    InsertHead(bits, s, base, head, ins, i);
    InsertLink(bits, s, base, head, prev, ins, top, i, head[h]);
  }

  /** The heads after i becomes the head for its key. */
  lemma InsertHead(bits: nat, s: seq<byte>, base: nat, head: seq<nat>, ins: set<nat>, i: nat)
    requires base + i + 3 <= |s| && KeyAt(bits, s, base + i) < |head|
    requires forall h :: 0 <= h < |head| ==> Leads(bits, s, base, head[h], h, ins)
    ensures var head' := head[KeyAt(bits, s, base + i) := i];
            forall k :: 0 <= k < |head'| ==> Leads(bits, s, base, head'[k], k, ins + {base + i})
  {
    hide KeyAt, Leads;
    var head', ins' := head[KeyAt(bits, s, base + i) := i], ins + {base + i};
    NewHead(bits, s, base, i, ins');
    forall k | 0 <= k < |head'|
      ensures Leads(bits, s, base, head'[k], k, ins')
    {
      HeadKept(bits, s, base, head, ins, ins', k);
    }
  }

  /** The links after the one for i is written. */
  lemma InsertLink(bits: nat, s: seq<byte>, base: nat, head: seq<nat>, prev: seq<nat>, ins: set<nat>, top: nat, i: nat, m: nat)
    requires Linked(bits, s, base, head, prev, ins, top) && top <= base + i && Behind(bits, s, base, m, base + i, ins)
    ensures var prev', ins' := prev[Slot(i, |prev|) := m], ins + {base + i};
            forall q :: q in ins' && base <= q && base + i + 1 <= q + |prev'| ==>
              Behind(bits, s, base, prev'[Slot(q - base, |prev'|)], q, ins')
  {
    hide KeyAt, Slot, Behind, Linked;
    assert 0 < |prev| by { PrevThere(bits, s, base, head, prev, ins, top); }
    var p, prev', ins' := base + i, prev[Slot(i, |prev|) := m], ins + {base + i};
    forall q | q in ins' && base <= q && p + 1 <= q + |prev'|
      ensures Behind(bits, s, base, prev'[Slot(q - base, |prev'|)], q, ins')
    {
      if q == p {
        BehindMore(bits, s, base, m, p, ins, ins');
      } else {
        LinkKept(bits, s, base, head, prev, ins, ins', top, i, q, m);
      }
    }
  }

  lemma PrevThere(bits: nat, s: seq<byte>, base: nat, head: seq<nat>, prev: seq<nat>, ins: set<nat>, top: nat)
    requires Linked(bits, s, base, head, prev, ins, top)
    ensures 0 < |prev|
  {}

  lemma HeadKept(bits: nat, s: seq<byte>, base: nat, head: seq<nat>, ins: set<nat>, ins': set<nat>, k: nat)
    requires k < |head| && ins <= ins'
    requires forall h :: 0 <= h < |head| ==> Leads(bits, s, base, head[h], h, ins)
    ensures Leads(bits, s, base, head[k], k, ins')
  {
    hide Leads;
    LeadsMore(bits, s, base, head[k], k, ins, ins');
  }

  /** A link written for i leaves the links of the strings within reach as they are. */
  lemma LinkKept(bits: nat, s: seq<byte>, base: nat, head: seq<nat>, prev: seq<nat>, ins: set<nat>, ins': set<nat>,
                 top: nat, i: nat, q: nat, m: nat)
    requires Linked(bits, s, base, head, prev, ins, top) && top <= base + i && ins <= ins'
    requires q in ins && base <= q && base + i + 1 <= q + |prev|
    ensures Behind(bits, s, base, prev[Slot(i, |prev|) := m][Slot(q - base, |prev|)], q, ins')
  {
    hide Slot, Behind, Leads, Pow2;
    SlotsDiffer(q - base, i, |prev|);
    BehindMore(bits, s, base, prev[Slot(q - base, |prev|)], q, ins, ins');
  }

  lemma HeadBehind(bits: nat, s: seq<byte>, base: nat, m: nat, p: nat, ins: set<nat>)
    requires p + 3 <= |s| && Leads(bits, s, base, m, KeyAt(bits, s, p), ins) && forall q :: q in ins ==> q < p
    ensures Behind(bits, s, base, m, p, ins)
  {}

  lemma NewHead(bits: nat, s: seq<byte>, base: nat, i: nat, ins: set<nat>)
    requires base + i in ins && base + i + 3 <= |s|
    ensures Leads(bits, s, base, i, KeyAt(bits, s, base + i), ins)
  {}

  lemma LeadsMore(bits: nat, s: seq<byte>, base: nat, m: nat, h: nat, ins: set<nat>, ins': set<nat>)
    requires Leads(bits, s, base, m, h, ins) && ins <= ins'
    ensures Leads(bits, s, base, m, h, ins')
  {}

  lemma BehindMore(bits: nat, s: seq<byte>, base: nat, m: nat, p: nat, ins: set<nat>, ins': set<nat>)
    requires Behind(bits, s, base, m, p, ins) && ins <= ins'
    ensures Behind(bits, s, base, m, p, ins')
  {}

  lemma KeyBound(bits: nat, s: seq<byte>, p: nat)
    requires p + 3 <= |s|
    ensures KeyAt(bits, s, p) < Pow2(bits)
  {
    hide Update;
    UpdateBound(bits, Update(bits, Update(bits, 0, s[p]), s[p + 1]), s[p + 2]);
  }

  /** More input. */
  lemma Longer(bits: nat, s: seq<byte>, t: seq<byte>, base: nat, head: seq<nat>, prev: seq<nat>, ins: set<nat>, top: nat)
    requires Linked(bits, s, base, head, prev, ins, top) && s <= t
    ensures Linked(bits, t, base, head, prev, ins, top)
  {
    hide Key, Pow2, Slot;
    forall k | 0 <= k < |head|
      ensures Leads(bits, t, base, head[k], k, ins)
    {
      assert Leads(bits, s, base, head[k], k, ins);
    }
    forall q | q in ins && base <= q && top <= q + |prev|
      ensures Behind(bits, t, base, prev[Slot(q - base, |prev|)], q, ins)
    {
      assert Behind(bits, s, base, prev[Slot(q - base, |prev|)], q, ins);
    }
  }

  /** slide_hash, on one entry. */
  function Slid(m: nat, w: nat): nat
  {
    if m >= w then m - w else 0
  }

  function SlidAll(t: seq<nat>, w: nat): (r: seq<nat>)
    ensures |r| == |t|
  {
    seq(|t|, i requires 0 <= i < |t| => Slid(t[i], w))
  }

  lemma SlotDown(i: nat, w: nat)
    requires 0 < w <= i
    ensures Slot(i - w, w) == Slot(i, w)
  {}

  /** slide_hash: the window starts w bytes later. */
  lemma Slide(bits: nat, s: seq<byte>, base: nat, head: seq<nat>, prev: seq<nat>, ins: set<nat>, top: nat)
    requires Linked(bits, s, base, head, prev, ins, top)
    ensures Linked(bits, s, base + |prev|, SlidAll(head, |prev|), SlidAll(prev, |prev|), ins, top)
  {
    hide KeyAt, Pow2, Slot, Leads, Behind, Slid;
    var w := |prev|;
    var head', prev' := SlidAll(head, w), SlidAll(prev, w);
    forall k | 0 <= k < |head'|
      ensures Leads(bits, s, base + w, head'[k], k, ins)
    {
      assert Leads(bits, s, base, head[k], k, ins);
      HeadSlid(bits, s, base, head[k], k, ins, w);
    }
    forall q | q in ins && base + w <= q && top <= q + w
      ensures Behind(bits, s, base + w, prev'[Slot(q - (base + w), w)], q, ins)
    {
      SlotDown(q - base, w);
      assert Behind(bits, s, base, prev[Slot(q - base, w)], q, ins);
      LinkSlid(bits, s, base, prev[Slot(q - base, w)], q, ins, w);
    }
  }

  lemma HeadSlid(bits: nat, s: seq<byte>, base: nat, m: nat, h: nat, ins: set<nat>, w: nat)
    requires Leads(bits, s, base, m, h, ins)
    ensures Leads(bits, s, base + w, Slid(m, w), h, ins)
  {
    hide KeyAt;
  }

  lemma LinkSlid(bits: nat, s: seq<byte>, base: nat, m: nat, p: nat, ins: set<nat>, w: nat)
    requires Behind(bits, s, base, m, p, ins)
    ensures Behind(bits, s, base + w, Slid(m, w), p, ins)
  {
    hide KeyAt;
  }

  /** CLEAR_HASH: no strings at all. */
  lemma Cleared(bits: nat, s: seq<byte>, base: nat, head: seq<nat>, prev: seq<nat>)
    requires |head| == Pow2(bits) && 0 < |prev| && forall k :: 0 <= k < |head| ==> head[k] == 0
    ensures Linked(bits, s, base, head, prev, {}, 0)
  {}

  /** The next string on the chain from p, as long as p is no further back than the links are kept. */
  lemma Next(bits: nat, s: seq<byte>, base: nat, head: seq<nat>, prev: seq<nat>, ins: set<nat>, top: nat, i: nat)
    requires Linked(bits, s, base, head, prev, ins, top) && base + i in ins && top <= base + i + |prev|
    ensures var m := prev[Slot(i, |prev|)];
            base + i + 3 <= |s| && Behind(bits, s, base, m, base + i, ins)
  {
    hide Key, Pow2;
    var p := base + i;
    assert p in ins && base <= p;
  }

  /** All strings on the way have all their bytes. */
  lemma TopLimit(bits: nat, s: seq<byte>, base: nat, head: seq<nat>, prev: seq<nat>, ins: set<nat>, top: nat)
    requires Linked(bits, s, base, head, prev, ins, top)
    ensures top == 0 || top + 2 <= |s|
  {
    hide Key, Pow2;
  }
}
