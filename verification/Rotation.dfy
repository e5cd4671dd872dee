/** The order in which the host pump serves its peers: ascending ids, rotated by a counter
    that goes up by one each turn and wraps around at 2^64.  Who comes first has the
    first claim on the return lane. */
module Rotation {
  const WORD := 0x1_0000_0000_0000_0000

  /** ids.rotate_left(rotation % len). */
  function Rotated(ids: seq<nat>, rotation: nat): (r: seq<nat>)
    ensures forall k :: k in r <==> k in ids
    ensures |r| == |ids| && (ids != [] ==> r[0] == ids[rotation % |ids|])
  {
    if ids == [] then [] else
      var first := rotation % |ids|;
      assert ids == ids[..first] + ids[first..];
      ids[first..] + ids[..first]
  }

  /** The counter k turns later. */
  function TurnsOn(rotation: nat, k: nat): nat { (rotation + k) % WORD }

  /** No id is twice in the list. */
  predicate Distinct(ids: seq<nat>) { forall i, j | 0 <= i < j < |ids| :: ids[i] != ids[j] }

  /** With the same peers all along, id comes first in one of the next n turns. */
  predicate FirstWithin(ids: seq<nat>, rotation: nat, id: nat, n: nat)
    requires ids != []
  {
    exists k | 0 <= k < n :: Rotated(ids, TurnsOn(rotation, k))[0] == id
  }

  lemma Steps(a: int, b: int, m: nat)
    ensures a < b ==> (a + 1) * m <= b * m
    ensures (a + 1) * m == a * m + m && (a - b) * m == a * m - b * m
  {
  }

  lemma Remainder(x: nat, q: nat, m: nat, r: nat)
    requires r < m && x == q * m + r
    ensures x % m == r
  {
    Steps(x / m, q, m);
    Steps(q, x / m, m);
    assert x == x / m * m + x % m;
  }

  /** From any count, less than m steps lead to one that leaves the remainder i. */
  lemma Onward(rotation: nat, i: nat, m: nat) returns (k: nat, turns: nat)
    requires i < m
    ensures k < m && rotation + k == turns * m + i
  {
    var q, at := rotation / m, rotation % m;
    assert rotation == q * m + at;
    Steps(q, q, m);
    k, turns := if at <= i then i - at else i - at + m, if at <= i then q else q + 1;
  }

  /** As long as the counter does not wrap around, every position has its turn. */
  lemma Reaches(rotation: nat, i: nat, m: nat) returns (k: nat)
    requires i < m && rotation + m <= WORD
    ensures k < m && TurnsOn(rotation, k) % m == i
  {
    var turns;
    k, turns := Onward(rotation, i, m);
    BeforeWrap(rotation, k);
    Remainder(rotation + k, turns, m, i);
  }

  lemma BeforeWrap(rotation: nat, k: nat)
    requires rotation + k < WORD
    ensures TurnsOn(rotation, k) == rotation + k
  {
  }

  /** Where the counter stands once it has wrapped around. */
  lemma AfterWrap(rotation: nat, k: nat)
    requires rotation < WORD <= rotation + k < 2 * WORD
    ensures TurnsOn(rotation, k) == rotation + k - WORD
  {
  }

  /** When the number of peers divides 2^64 the wrap does no harm. */
  lemma ReachesAnyway(rotation: nat, i: nat, m: nat) returns (k: nat)
    requires i < m <= WORD && rotation < WORD && WORD % m == 0
    ensures k < m && TurnsOn(rotation, k) % m == i
  {
    var turns;
    k, turns := Onward(rotation, i, m);
    if rotation + k < WORD {
      BeforeWrap(rotation, k);
      Remainder(rotation + k, turns, m, i);
    } else {
      AfterWrap(rotation, k);
      var w := WORD / m;
      assert WORD == w * m;
      Steps(turns, w, m);
      Remainder(rotation + k - WORD, turns - w, m, i);
    }
  }

  /** A position that has no turn in the m turns around the wrap, `before` of them before
      it, when m leaves a remainder r. */
  function Skipped(m: nat, before: nat, r: nat): int { if before <= r then m - 1 else m - before + r - 1 }

  lemma SkipsBefore(rotation: nat, m: nat, k: nat)
    requires 0 < m <= WORD && rotation < WORD < rotation + m && WORD % m != 0 && rotation + k < WORD
    ensures TurnsOn(rotation, k) % m != Skipped(m, WORD - rotation, WORD % m)
  {
    var w, r, a := WORD / m, WORD % m, WORD - rotation;
    assert WORD == w * m + r;
    BeforeWrap(rotation, k);
    if a <= r + k {
      Remainder(rotation + k, w, m, r + k - a);
    } else {
      Steps(w - 1, 0, m);
      Remainder(rotation + k, w - 1, m, m + r + k - a);
    }
  }

  lemma SkipsAfter(rotation: nat, m: nat, k: nat)
    requires 0 < m <= WORD && rotation < WORD < rotation + m && WORD % m != 0 && WORD <= rotation + k && k < m
    ensures TurnsOn(rotation, k) % m != Skipped(m, WORD - rotation, WORD % m)
  {
    AfterWrap(rotation, k);
    Remainder(rotation + k - WORD, 0, m, rotation + k - WORD);
  }

  /** Every peer comes first within as many turns as there are peers, exactly if the
      counter does not wrap around meanwhile or the number of peers divides 2^64. */
  lemma FairExactly(ids: seq<nat>, rotation: nat)
    requires ids != [] && |ids| <= WORD && Distinct(ids) && rotation < WORD
    ensures (forall id | id in ids :: FirstWithin(ids, rotation, id, |ids|)) <==>
            rotation + |ids| <= WORD || WORD % |ids| == 0
  {
    var m := |ids|;
    if rotation + m <= WORD || WORD % m == 0 {
      forall id | id in ids ensures FirstWithin(ids, rotation, id, m) {
        var i :| 0 <= i < m && ids[i] == id;
        var k;
        if rotation + m <= WORD { k := Reaches(rotation, i, m); } else { k := ReachesAnyway(rotation, i, m); }
        assert Rotated(ids, TurnsOn(rotation, k))[0] == id;
      }
    } else {
      var x := Skipped(m, WORD - rotation, WORD % m);
      assert ids[x] in ids;
      forall k | 0 <= k < m ensures Rotated(ids, TurnsOn(rotation, k))[0] != ids[x] {
        if rotation + k < WORD { SkipsBefore(rotation, m, k); } else { SkipsAfter(rotation, m, k); }
      }
    }
  }

  /** In any case every peer comes first within twice as many turns. */
  lemma FirstWithinTwice(ids: seq<nat>, rotation: nat, id: nat)
    requires id in ids && 2 * |ids| <= WORD && rotation < WORD
    ensures FirstWithin(ids, rotation, id, 2 * |ids|)
  {
    var m := |ids|;
    var i :| 0 <= i < m && ids[i] == id;
    var k;
    if rotation + m <= WORD {
      k := Reaches(rotation, i, m);
    } else {
      var j := Reaches(0, i, m);
      BeforeWrap(0, j);
      k := j + (WORD - rotation);
      AfterWrap(rotation, k);
    }
    assert Rotated(ids, TurnsOn(rotation, k))[0] == id;
  }
}
