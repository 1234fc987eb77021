/** src/hashring.rs: the consistent hash ring. */
module HashRing {
  import opened Prelude
  import opened Mix64

  datatype Member = Member(id: nat, name: Bytes)

  /** The ring as a map from positions to member identities. */
  type Points = map<nat, nat>

  // ---- building ----------------------------------------------------------

  /** Insert the first `n` virtual nodes of one member; a collision overwrites. */
  function Placed(points: Points, m: Member, n: nat): Points {
    if n == 0 then points else Placed(points, m, n - 1)[VirtualNode(m.name, n - 1) := m.id]
  }

  /** The ring freshly built from the first `n` members, in order. */
  function Built(members: seq<Member>, vnodes: nat, n: nat): Points
    requires n <= |members|
  {
    if n == 0 then map[] else Placed(Built(members, vnodes, n - 1), members[n - 1], vnodes)
  }

  function Fresh(members: seq<Member>, vnodes: nat): Points {
    Built(members, vnodes, |members|)
  }

  // ---- looking up --------------------------------------------------------

  ghost predicate IsLeast(s: set<nat>, p: nat) {
    p in s && forall q :: q in s ==> p <= q
  }

  function Least(s: set<nat>): (p: nat)
    requires s != {}
    ensures IsLeast(s, p)
  {
    LeastExists(s);
    var p :| p in s && forall q :: q in s ==> p <= q;
    p
  }

  lemma {:induction false} LeastExists(s: set<nat>)
    requires s != {}
    ensures exists p :: IsLeast(s, p)
  {
    var x :| x in s;
    if s == {x} {
      assert IsLeast(s, x);
    } else {
      LeastExists(s - {x});
      var p :| IsLeast(s - {x}, p);
      var least := if p < x then p else x;
      forall q | q in s ensures least <= q {
        assert q == x || q in s - {x};
      }
      assert IsLeast(s, least);
    }
  }

  function AtOrAfter(points: Points, h: nat): set<nat> {
    set q | q in points.Keys && h <= q
  }

  /** The first position at or after `h`, wrapping to the start of the ring. */
  function Successor(points: Points, h: nat): (p: nat)
    requires points != map[]
    ensures p in points
  {
    var after := AtOrAfter(points, h);
    if after != {} then Least(after) else Least(points.Keys)
  }

  /** The member responsible for a position. */
  function Owner(points: Points, h: nat): Option<nat> {
    if points == map[] then None else Some(points[Successor(points, h)])
  }

  /** Position `p` is where the clockwise walk from `h` ends: the nearest one at or
      after `h`, or the lowest of all if there is none. */
  ghost predicate Clockwise(points: Points, h: nat, p: nat) {
    && p in points
    && (h <= p ==> forall q :: q in points && h <= q ==> p <= q)
    && (p < h ==> forall q :: q in points ==> q < h && p <= q)
  }

  /** The owner of a position is the member at the end of that walk, which there is
      exactly one of. */
  lemma {:induction false} OwnerIsClockwise(points: Points, h: nat, p: nat)
    requires Clockwise(points, h, p)
    ensures Owner(points, h) == Some(points[p])
  {
    var after := AtOrAfter(points, h);
    if h <= p {
      assert p in after;
    }
  }

  lemma {:induction false} ClockwiseEnds(points: Points, h: nat) returns (p: nat)
    requires points != map[]
    ensures Clockwise(points, h, p)
  {
    p := Successor(points, h);
    var after := AtOrAfter(points, h);
    if after == {} {
      forall q | q in points ensures q < h {
        assert q !in after;
      }
    } else {
      forall q | q in points && h <= q ensures p <= q {
        assert q in after;
      }
    }
  }

  class ConsistentHashRing {
    const vnodes: nat
    var ring: Points
    var members: seq<nat>

    constructor (vnodes: u32)
      ensures this.vnodes == Max(vnodes, 1)
      ensures ring == map[] && members == []
    {
      this.vnodes := Max(vnodes, 1);
      ring := map[];
      members := [];
    }

    method Rebuild(ms: seq<Member>)
      modifies this
      ensures ring == Fresh(ms, vnodes)
      ensures members == seq(|ms|, i requires 0 <= i < |ms| => ms[i].id)
    {
      hide Fnv, Mix, Word, Plus, Position;
      ring := map[];
      members := seq(|ms|, i requires 0 <= i < |ms| => ms[i].id);
      for i := 0 to |ms|
        invariant ring == Built(ms, vnodes, i)
        invariant members == seq(|ms|, i requires 0 <= i < |ms| => ms[i].id)
      {
        var base := Fnv1a64(ms[i].name);
        for v := 0 to vnodes
          invariant ring == Placed(Built(ms, vnodes, i), ms[i], v)
          invariant members == seq(|ms|, i requires 0 <= i < |ms| => ms[i].id)
        {
          var spread := MixWord(Word(v));
          var point := MixWord(Plus(base, spread));
          ring := ring[Position(point) := ms[i].id];
        }
      }
    }

    predicate IsEmpty()
      reads this
    {
      ring == map[]
    }

    function Lookup(key: Bytes): (id: Option<nat>)
      reads this
      ensures id == Owner(ring, KeyPosition(key))
    {
      if ring == map[] then None
      else
        var h := KeyPosition(key);
        var after := AtOrAfter(ring, h);
        if after != {} then Some(ring[Least(after)]) else Some(ring[Least(ring.Keys)])
    }
  }

  // ---- what a position belongs to ----------------------------------------

  /** Member `i` occupies `p` with one of its virtual nodes. */
  ghost predicate Occupies(m: Member, vnodes: nat, p: nat) {
    exists v :: 0 <= v < vnodes && VirtualNode(m.name, v) == p
  }

  /** The winner of `p`: the last member in list order that occupies it. */
  ghost predicate Wins(members: seq<Member>, vnodes: nat, n: nat, p: nat, i: nat)
    requires n <= |members|
  {
    && i < n && Occupies(members[i], vnodes, p)
    && forall j :: i < j < n ==> !Occupies(members[j], vnodes, p)
  }

  lemma {:induction false} PlacedContents(points: Points, m: Member, n: nat, p: nat)
    ensures p in Placed(points, m, n) <==> p in points || Occupies(m, n, p)
    ensures Occupies(m, n, p) ==> Placed(points, m, n)[p] == m.id
    ensures !Occupies(m, n, p) && p in points ==> Placed(points, m, n)[p] == points[p]
  {
    hide VirtualNode;
    if n > 0 {
      PlacedContents(points, m, n - 1, p);
      if p == VirtualNode(m.name, n - 1) {
        assert Occupies(m, n, p);
      } else if Occupies(m, n - 1, p) {
        var v :| 0 <= v < n - 1 && VirtualNode(m.name, v) == p;
        assert Occupies(m, n, p);
      }
    }
  }

  /** A built ring holds exactly the occupied positions, and each belongs to the
      last member that occupies it, collisions included. */
  lemma {:induction false} BuiltContents(members: seq<Member>, vnodes: nat, n: nat, p: nat)
    requires n <= |members|
    ensures p in Built(members, vnodes, n) <==> exists i: nat :: i < n && Occupies(members[i], vnodes, p)
    ensures p in Built(members, vnodes, n)
            ==> exists i: nat :: Wins(members, vnodes, n, p, i) && Built(members, vnodes, n)[p] == members[i].id
  {
    hide VirtualNode;
    if n > 0 {
      var m := members[n - 1];
      BuiltContents(members, vnodes, n - 1, p);
      PlacedContents(Built(members, vnodes, n - 1), m, vnodes, p);
      if Occupies(m, vnodes, p) {
        assert Wins(members, vnodes, n, p, n - 1);
      } else if p in Built(members, vnodes, n - 1) {
        var i: nat :| Wins(members, vnodes, n - 1, p, i) && Built(members, vnodes, n - 1)[p] == members[i].id;
        assert Wins(members, vnodes, n, p, i);
      }
    }
  }

  lemma {:induction false} WinnerUnique(members: seq<Member>, vnodes: nat, n: nat, p: nat, i: nat)
    requires n <= |members| && Wins(members, vnodes, n, p, i)
    ensures p in Built(members, vnodes, n) && Built(members, vnodes, n)[p] == members[i].id
  {
    hide VirtualNode;
    BuiltContents(members, vnodes, n, p);
    var j: nat :| Wins(members, vnodes, n, p, j) && Built(members, vnodes, n)[p] == members[j].id;
    assert i == j;
  }

  // ---- stability ---------------------------------------------------------

  /** `sub` is an order-preserving sublist of `members`: entry `i` of `sub` is
      entry `at[i]` of `members`. */
  ghost predicate Sublist(sub: seq<Member>, members: seq<Member>, at: seq<nat>) {
    && |at| == |sub|
    && (forall i :: 0 <= i < |sub| ==> at[i] < |members| && sub[i] == members[at[i]])
    && (forall i, j :: 0 <= i < j < |at| ==> at[i] < at[j])
  }

  ghost predicate DistinctIds(members: seq<Member>) {
    forall i, j :: 0 <= i < j < |members| ==> members[i].id != members[j].id
  }

  ghost predicate HasId(members: seq<Member>, id: nat) {
    exists i :: 0 <= i < |members| && members[i].id == id
  }

  /** The clockwise walk lands on the same position when positions other than it
      disappear. */
  lemma {:induction false} SuccessorStable(points: Points, fewer: Points, h: nat)
    requires fewer.Keys <= points.Keys && points != map[]
    requires Successor(points, h) in fewer
    ensures fewer != map[] && Successor(fewer, h) == Successor(points, h)
  {
    var p := Successor(points, h);
    var after, after' := AtOrAfter(points, h), AtOrAfter(fewer, h);
    if after != {} {
      assert p in after';
      assert Least(after') in after;
    } else {
      assert forall q :: q in after' ==> q in after;
      assert Least(fewer.Keys) in points.Keys;
    }
  }

  lemma {:induction false} SublistOccupies(sub: seq<Member>, members: seq<Member>, at: seq<nat>, vnodes: nat)
    requires Sublist(sub, members, at)
    ensures Fresh(sub, vnodes).Keys <= Fresh(members, vnodes).Keys
  {
    hide VirtualNode;
    forall p | p in Fresh(sub, vnodes) ensures p in Fresh(members, vnodes) {
      BuiltContents(sub, vnodes, |sub|, p);
      BuiltContents(members, vnodes, |members|, p);
      var i: nat :| i < |sub| && Occupies(sub[i], vnodes, p);
      assert Occupies(members[at[i]], vnodes, p);
    }
  }

  /** Stability with no assumption on identities or collisions: as long as the
      entry that owns a position survives, in any order-preserving sublist, the
      position keeps its owner. */
  lemma {:induction false} StableWhileWinnerSurvives(
      sub: seq<Member>, members: seq<Member>, at: seq<nat>, vnodes: nat, h: nat, t: nat)
    requires Sublist(sub, members, at) && t < |sub|
    requires Fresh(members, vnodes) != map[]
    requires Wins(members, vnodes, |members|, Successor(Fresh(members, vnodes), h), at[t])
    ensures Owner(Fresh(members, vnodes), h) == Some(sub[t].id)
    ensures Owner(Fresh(sub, vnodes), h) == Some(sub[t].id)
  {
    hide VirtualNode;
    var p := Successor(Fresh(members, vnodes), h);
    WinnerUnique(members, vnodes, |members|, p, at[t]);
    assert Wins(sub, vnodes, |sub|, p, t) by {
      forall j | t < j < |sub| ensures !Occupies(sub[j], vnodes, p) {
        assert at[t] < at[j];
      }
    }
    WinnerUnique(sub, vnodes, |sub|, p, t);
    SublistOccupies(sub, members, at, vnodes);
    SuccessorStable(Fresh(members, vnodes), Fresh(sub, vnodes), h);
  }

  /** The owner of a position comes from a winning entry of the list. */
  lemma {:induction false} OwnerEntry(members: seq<Member>, vnodes: nat, h: nat) returns (w: nat)
    requires Fresh(members, vnodes) != map[]
    ensures Wins(members, vnodes, |members|, Successor(Fresh(members, vnodes), h), w)
    ensures Owner(Fresh(members, vnodes), h) == Some(members[w].id)
  {
    hide VirtualNode;
    var p := Successor(Fresh(members, vnodes), h);
    BuiltContents(members, vnodes, |members|, p);
    w :| Wins(members, vnodes, |members|, p, w) && Fresh(members, vnodes)[p] == members[w].id;
  }

  /** Minimal remapping in both directions: between a list with distinct
      identities and any order-preserving sublist, a key either keeps its owner
      or its owner in the larger list is missing from the smaller one. So
      removing members moves only their own keys, and adding members moves keys
      only onto the new ones. */
  lemma {:induction false} MinimalRemap(sub: seq<Member>, members: seq<Member>, at: seq<nat>, vnodes: nat, h: nat)
    requires Sublist(sub, members, at) && DistinctIds(members) && Fresh(members, vnodes) != map[]
    ensures Owner(Fresh(members, vnodes), h).Some?
    ensures Owner(Fresh(sub, vnodes), h) == Owner(Fresh(members, vnodes), h)
            <==> HasId(sub, Owner(Fresh(members, vnodes), h).value)
  {
    hide VirtualNode;
    var w := OwnerEntry(members, vnodes, h);
    var z := members[w].id;
    if HasId(sub, z) {
      var t :| 0 <= t < |sub| && sub[t].id == z;
      assert at[t] == w;
      StableWhileWinnerSurvives(sub, members, at, vnodes, h, t);
    } else if Fresh(sub, vnodes) != map[] {
      var w' := OwnerEntry(sub, vnodes, h);
      assert sub[w'].id != z;
    }
  }

  // ---- size --------------------------------------------------------------

  /** A ring is empty exactly when it has no members or no virtual nodes. */
  lemma {:induction false} EmptyExactlyWhen(members: seq<Member>, vnodes: nat)
    ensures Fresh(members, vnodes) == map[] <==> members == [] || vnodes == 0
  {
    hide VirtualNode;
    if members != [] && vnodes > 0 {
      var p := VirtualNode(members[0].name, 0);
      assert Occupies(members[0], vnodes, p);
      BuiltContents(members, vnodes, |members|, p);
    } else if Fresh(members, vnodes) != map[] {
      var p :| p in Fresh(members, vnodes);
      BuiltContents(members, vnodes, |members|, p);
      assert false;
    }
  }

  /** A one-member ring has exactly `vnodes` positions: they never collide. */
  lemma {:induction false} OneMemberSize(m: Member, vnodes: nat)
    requires vnodes <= U32_MAX
    ensures |Placed(map[], m, vnodes)| == vnodes
    ensures |Fresh([m], vnodes)| == vnodes
  {
    hide VirtualNode;
    assert Built([m], vnodes, 0) == map[];
    assert Fresh([m], vnodes) == Placed(map[], m, vnodes);
    if vnodes > 0 {
      OneMemberSize(m, vnodes - 1);
      var p := VirtualNode(m.name, vnodes - 1);
      PlacedContents(map[], m, vnodes - 1, p);
      if Occupies(m, vnodes - 1, p) {
        var v: nat :| v < vnodes - 1 && VirtualNode(m.name, v) == p;
        VirtualNodesDistinct(m.name, v, vnodes - 1);
        assert false;
      }
    }
  }
}
