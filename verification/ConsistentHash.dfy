/** Worker selection by hash ring and by rendezvous, for an arbitrary hash, and what removing a
    worker does to it. */
module ConsistentHash {
  import opened Options

  type Url = string
  type Point = nat
  type Ring = map<Point, Url>

  /** Where virtual node `i` of a worker lies. */
  type Placement = (Url, nat) -> Point

  // ---------- the ring ----------

  /** The first `v` virtual nodes of one worker go in; a colliding point is overwritten. */
  function AddNodes(ring: Ring, url: Url, v: nat, place: Placement): Ring {
    if v == 0 then ring else AddNodes(ring, url, v - 1, place)[place(url, v - 1) := url]
  }

  function RingOf(urls: seq<Url>, v: nat, place: Placement): Ring {
    if urls == [] then map[]
    else AddNodes(RingOf(urls[..|urls| - 1], v, place), urls[|urls| - 1], v, place)
  }

  lemma {:induction false} AddedPoints(ring: Ring, url: Url, v: nat, place: Placement, p: Point)
    ensures var added := AddNodes(ring, url, v, place);
            && (p in added <==> p in ring || exists i: nat :: i < v && place(url, i) == p)
            && ((exists i: nat :: i < v && place(url, i) == p) ==> added[p] == url)
            && (p in ring && (forall i: nat :: i < v ==> place(url, i) != p) ==> added[p] == ring[p])
  {
    if v > 0 { AddedPoints(ring, url, v - 1, place, p); }
  }

  /** The points of a ring are those of all virtual nodes of all workers. */
  lemma {:induction false} RingPoints(urls: seq<Url>, v: nat, place: Placement, p: Point)
    ensures p in RingOf(urls, v, place) <==>
            exists k: nat, i: nat :: k < |urls| && i < v && place(urls[k], i) == p
  {
    if urls != [] {
      var n, front := |urls| - 1, urls[..|urls| - 1];
      RingPoints(front, v, place, p);
      AddedPoints(RingOf(front, v, place), urls[n], v, place, p);
      assert forall k: nat :: k < n ==> front[k] == urls[k];
      if k: nat, i: nat :| k < |front| && i < v && place(front[k], i) == p { assert place(urls[k], i) == p; }
      if k: nat, i: nat :| k < |urls| && i < v && place(urls[k], i) == p {
        assert k < n ==> place(front[k], i) == p;
        assert k == n ==> place(urls[n], i) == p;
      }
    }
  }

  /** A point belongs to the last worker in the list with a virtual node there. */
  lemma {:induction false} RingOwner(urls: seq<Url>, v: nat, place: Placement, p: Point) returns (k: nat, i: nat)
    requires p in RingOf(urls, v, place)
    ensures k < |urls| && i < v && place(urls[k], i) == p && RingOf(urls, v, place)[p] == urls[k]
    ensures forall k', i': nat :: k < k' < |urls| && i' < v ==> place(urls[k'], i') != p
  {
    var n, front := |urls| - 1, urls[..|urls| - 1];
    AddedPoints(RingOf(front, v, place), urls[n], v, place, p);
    if j: nat :| j < v && place(urls[n], j) == p {
      k, i := n, j;
    } else {
      k, i := RingOwner(front, v, place, p);
      forall k', i': nat | k < k' < |urls| && i' < v ensures place(urls[k'], i') != p {
        assert k' < n ==> front[k'] == urls[k'];
      }
    }
  }

  method BuildRing(urls: seq<Url>, v: nat, place: Placement) returns (ring: Ring)
    ensures ring == RingOf(urls, v, place)
  {
    ring := map[];
    var k := 0;
    while k < |urls|
      invariant k <= |urls| && ring == RingOf(urls[..k], v, place)
    {
      ghost var before := ring;
      var i := 0;
      while i < v
        invariant i <= v && ring == AddNodes(before, urls[k], i, place)
      {
        ring := ring[place(urls[k], i) := urls[k]];
        i := i + 1;
      }
      assert urls[..k + 1][..k] == urls[..k];
      k := k + 1;
    }
    assert urls[..k] == urls;
  }

  /** The first point at or after `h`, or the first of all when there is none. */
  ghost predicate Next(ring: Ring, h: Point, p: Point) {
    && p in ring
    && if exists q :: q in ring && q >= h
       then p >= h && forall q :: q in ring && q >= h ==> p <= q
       else forall q :: q in ring ==> p <= q
  }

  lemma NextUnique(ring: Ring, h: Point, p: Point, q: Point)
    requires Next(ring, h, p) && Next(ring, h, q)
    ensures p == q
  {
  }

  /** The least point of a ring that is at least `from`, if any. */
  method LeastFrom(ring: Ring, from: Point) returns (p: Option<Point>)
    ensures p.None? ==> forall q :: q in ring ==> q < from
    ensures p.Some? ==> p.value in ring && p.value >= from && forall q :: q in ring && q >= from ==> p.value <= q
  {
    p := None;
    var todo := ring.Keys;
    while todo != {}
      invariant todo <= ring.Keys
      invariant p.None? ==> forall q :: q in ring && q !in todo ==> q < from
      invariant p.Some? ==> p.value in ring && p.value >= from
                            && forall q :: q in ring && q !in todo && q >= from ==> p.value <= q
    {
      var q :| q in todo;
      if q >= from && (p.None? || q < p.value) {
        p := Some(q);
      }
      todo := todo - {q};
    }
  }

  /** The worker a key hashed to `h` is routed to; none on an empty ring. */
  method SelectOnRing(ring: Ring, h: Point) returns (url: Option<Url>)
    ensures url.None? <==> ring == map[]
    ensures url.Some? ==> exists p :: Next(ring, h, p) && ring[p] == url.value
  {
    var p := LeastFrom(ring, h);
    if p.None? {
      p := LeastFrom(ring, 0);
    }
    if p.None? {
      assert forall q :: q !in ring;
      return None;
    }
    assert Next(ring, h, p.value);
    url := Some(ring[p.value]);
  }

  // ---------- removing a worker ----------

  function Without(urls: seq<Url>, r: Url): seq<Url> {
    if urls == [] then []
    else Without(urls[..|urls| - 1], r) + if urls[|urls| - 1] == r then [] else [urls[|urls| - 1]]
  }

  /** The ring without `r` has no points of its own, and keeps every point that was not `r`'s. */
  ghost predicate Thinned(full: Ring, reduced: Ring, r: Url) {
    && reduced.Keys <= full.Keys
    && forall p :: p in full && full[p] != r ==> p in reduced && reduced[p] == full[p]
  }

  lemma {:induction false} AddOther(full: Ring, reduced: Ring, r: Url, url: Url, v: nat, place: Placement)
    requires Thinned(full, reduced, r) && url != r
    ensures Thinned(AddNodes(full, url, v, place), AddNodes(reduced, url, v, place), r)
  {
    if v > 0 { AddOther(full, reduced, r, url, v - 1, place); }
  }

  lemma {:induction false} AddRemoved(full: Ring, reduced: Ring, r: Url, v: nat, place: Placement)
    requires Thinned(full, reduced, r)
    ensures Thinned(AddNodes(full, r, v, place), reduced, r)
  {
    if v > 0 { AddRemoved(full, reduced, r, v - 1, place); }
  }

  lemma {:induction false} RingThinned(urls: seq<Url>, r: Url, v: nat, place: Placement)
    ensures Thinned(RingOf(urls, v, place), RingOf(Without(urls, r), v, place), r)
  {
    if urls != [] {
      var front, url := urls[..|urls| - 1], urls[|urls| - 1];
      RingThinned(front, r, v, place);
      if url == r {
        AddRemoved(RingOf(front, v, place), RingOf(Without(front, r), v, place), r, v, place);
        assert Without(urls, r) == Without(front, r);
      } else {
        AddOther(RingOf(front, v, place), RingOf(Without(front, r), v, place), r, url, v, place);
        assert Without(urls, r)[..|Without(urls, r)| - 1] == Without(front, r);
      }
    }
  }

  /** Minimal disruption on the ring: a key that was not on `r` stays where it was. */
  lemma RingDisruption(urls: seq<Url>, r: Url, v: nat, place: Placement, h: Point, p: Point)
    requires var full := RingOf(urls, v, place); Next(full, h, p) && full[p] != r
    ensures var full, reduced := RingOf(urls, v, place), RingOf(Without(urls, r), v, place);
            Next(reduced, h, p) && reduced[p] == full[p]
  {
    RingThinned(urls, r, v, place);
  }

  // ---------- rendezvous ----------

  /** The worker with the highest score; of several the last. */
  function Rendezvous(urls: seq<Url>, score: Url -> nat): Option<Url> {
    if urls == [] then None
    else
      var url, best := urls[|urls| - 1], Rendezvous(urls[..|urls| - 1], score);
      if best.None? || score(url) >= score(best.value) then Some(url) else best
  }

  method SelectByScore(urls: seq<Url>, score: Url -> nat) returns (best: Option<Url>)
    ensures best == Rendezvous(urls, score)
  {
    best := None;
    var k := 0;
    while k < |urls|
      invariant k <= |urls| && best == Rendezvous(urls[..k], score)
    {
      assert urls[..k + 1][..k] == urls[..k];
      if best.None? || score(urls[k]) >= score(best.value) {
        best := Some(urls[k]);
      }
      k := k + 1;
    }
    assert urls[..k] == urls;
  }

  /** The choice is a maximum, and everything listed after its last occurrence scores less. */
  lemma {:induction false} RendezvousIsLastMaximum(urls: seq<Url>, score: Url -> nat)
    returns (i: nat)
    requires urls != []
    ensures i < |urls| && Rendezvous(urls, score) == Some(urls[i])
    ensures forall j :: 0 <= j < |urls| ==> score(urls[j]) <= score(urls[i])
    ensures forall j :: i < j < |urls| ==> score(urls[j]) < score(urls[i])
  {
    var n := |urls| - 1;
    if n == 0 {
      assert urls[..0] == [];
      i := 0;
    } else {
      var k := RendezvousIsLastMaximum(urls[..n], score);
      assert forall j :: 0 <= j < n ==> urls[..n][j] == urls[j];
      i := if score(urls[n]) >= score(urls[k]) then n else k;
    }
  }

  /** Minimal disruption by rendezvous; and the best of the rest never beats the best of all. */
  lemma {:induction false} RendezvousDisruption(urls: seq<Url>, r: Url, score: Url -> nat)
    ensures var all, rest := Rendezvous(urls, score), Rendezvous(Without(urls, r), score);
            && (all.Some? && all.value != r ==> rest == all)
            && (rest.Some? ==> all.Some? && score(rest.value) <= score(all.value))
  {
    if urls != [] {
      var front, url := urls[..|urls| - 1], urls[|urls| - 1];
      RendezvousDisruption(front, r, score);
      if url == r {
        assert Without(urls, r) == Without(front, r);
      } else {
        assert Without(urls, r)[..|Without(urls, r)| - 1] == Without(front, r);
      }
    }
  }
}
