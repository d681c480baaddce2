/**
 * The lobby's slot table: four player ids, each either free (the empty
 * string) or held by the session id of the connection it was handed to.
 * This module holds the reference definitions that the lobby's `getId` and
 * `indexOf` scans are proved against, and the facts about occupancy that
 * the lobby's invariant is built from.
 */
module Slots {

  /** The marker of a free slot. */
  const Free: string := ""

  /** The player ids handed out, one per slot (the lobby's `ids` table). */
  const Ids: seq<int> := [0, 1, 2, 3]

  /** ASCII case folding of one character. */
  function FoldChar(c: char): char
  {
    if 'A' <= c <= 'Z' then (c as int + 32) as char else c
  }

  function FoldCase(s: string): string
  {
    seq(|s|, i requires 0 <= i < |s| => FoldChar(s[i]))
  }

  /** Java's `String.equalsIgnoreCase`, restricted to ASCII letters. */
  predicate EqualsIgnoreCase(a: string, b: string)
  {
    FoldCase(a) == FoldCase(b)
  }

  /** Two ids match ignoring case when they have equal lengths and every pair of characters is equal once folded. */
  lemma EqualsIgnoreCaseCharwise(a: string, b: string)
    ensures EqualsIgnoreCase(a, b) <==> |a| == |b| && forall i | 0 <= i < |a| :: FoldChar(a[i]) == FoldChar(b[i])
  {
    var fa, fb := FoldCase(a), FoldCase(b);
    assert |fa| == |a| && forall i | 0 <= i < |a| :: fa[i] == FoldChar(a[i]);
    assert |fb| == |b| && forall i | 0 <= i < |b| :: fb[i] == FoldChar(b[i]);
  }

  /** The first free slot, or -1 when all are taken: what `getId` scans for. */
  function LowestFree(slots: seq<string>): (r: int)
    ensures -1 <= r < |slots|
    ensures r == -1 <==> forall k | 0 <= k < |slots| :: slots[k] != Free
    ensures r != -1 ==> slots[r] == Free && forall k | 0 <= k < r :: slots[k] != Free
  {
    if |slots| == 0 then -1
    else if slots[0] == Free then 0
    else
      var r := LowestFree(slots[1..]);
      if r == -1 then -1 else r + 1
  }

  /** The first slot whose holder equals `id` ignoring case, or -1: what `indexOf` scans for. */
  function SlotOf(slots: seq<string>, id: string): (r: int)
    ensures -1 <= r < |slots|
    ensures r == -1 <==> forall k | 0 <= k < |slots| :: !EqualsIgnoreCase(id, slots[k])
    ensures r != -1 ==> EqualsIgnoreCase(id, slots[r]) && forall k | 0 <= k < r :: !EqualsIgnoreCase(id, slots[k])
  {
    if |slots| == 0 then -1
    else if EqualsIgnoreCase(id, slots[0]) then 0
    else
      var r := SlotOf(slots[1..], id);
      if r == -1 then -1 else r + 1
  }

  /** The number of slots in use. */
  function OccupiedCount(slots: seq<string>): (n: nat)
    ensures n <= |slots|
    ensures n == |slots| <==> forall k | 0 <= k < |slots| :: slots[k] != Free
  {
    if |slots| == 0 then 0
    else (if slots[0] != Free then 1 else 0) + OccupiedCount(slots[1..])
  }

  /** The session ids holding a slot. */
  ghost function Occupants(slots: seq<string>): set<string>
  {
    set k | 0 <= k < |slots| && slots[k] != Free :: slots[k]
  }

  /** No two slots are held by session ids that `indexOf` cannot tell apart. */
  ghost predicate DistinctOccupants(slots: seq<string>)
  {
    forall i, j | 0 <= i < |slots| && 0 <= j < |slots| && i != j && slots[i] != Free ::
      !EqualsIgnoreCase(slots[i], slots[j])
  }

  /** A non-empty id never matches a free slot. */
  lemma FreeMatchesOnlyEmpty(id: string)
    requires id != Free
    ensures !EqualsIgnoreCase(id, Free)
  {
    assert |FoldCase(id)| != |FoldCase(Free)|;
  }

  /** With distinct holders, the number of holders is the number of slots in use. */
  lemma {:induction false} OccupantsCount(slots: seq<string>)
    requires DistinctOccupants(slots)
    ensures |Occupants(slots)| == OccupiedCount(slots)
  {
    if |slots| > 0 {
      DistinctTail(slots);
      OccupantsCount(slots[1..]);
      OccupantsCons(slots);
    }
  }

  /** Dropping the first slot keeps the holders distinct. */
  lemma DistinctTail(slots: seq<string>)
    requires DistinctOccupants(slots) && |slots| > 0
    ensures DistinctOccupants(slots[1..])
  {
    var tail := slots[1..];
    forall i, j | 0 <= i < |tail| && 0 <= j < |tail| && i != j && tail[i] != Free
      ensures !EqualsIgnoreCase(tail[i], tail[j])
    {
      assert tail[i] == slots[i + 1] && tail[j] == slots[j + 1];
    }
  }

  /** The holders are the first slot's holder, if any, next to the rest's, which it is not among. */
  lemma OccupantsCons(slots: seq<string>)
    requires DistinctOccupants(slots) && |slots| > 0
    ensures slots[0] != Free ==> slots[0] !in Occupants(slots[1..])
    ensures Occupants(slots) == (if slots[0] != Free then {slots[0]} else {}) + Occupants(slots[1..])
  {
    var tail := slots[1..];
    forall x | x in Occupants(slots) ensures x == slots[0] || x in Occupants(tail) {
      var k :| 0 <= k < |slots| && slots[k] != Free && slots[k] == x;
      if k > 0 { assert tail[k - 1] == x; }
    }
    forall x | x in Occupants(tail) ensures x in Occupants(slots) {
      var k :| 0 <= k < |tail| && tail[k] != Free && tail[k] == x;
      assert slots[k + 1] == x;
    }
    if slots[0] != Free {
      forall k | 0 <= k < |tail| && tail[k] != Free ensures tail[k] != slots[0] {
        assert tail[k] == slots[k + 1];
      }
    }
  }

  /** A table with fewer holders than slots has a free slot for `getId` to find. */
  lemma FreeSlotWhenNotFull(slots: seq<string>)
    requires OccupiedCount(slots) < |slots|
    ensures 0 <= LowestFree(slots) < |slots|
  {
  }

  /** A holder of a table with distinct holders is found by `indexOf` at its own slot. */
  lemma {:induction false} SlotOfHolder(slots: seq<string>, i: int)
    requires DistinctOccupants(slots)
    requires 0 <= i < |slots| && slots[i] != Free
    ensures SlotOf(slots, slots[i]) == i
  {
    assert EqualsIgnoreCase(slots[i], slots[i]);
    forall k | 0 <= k < i ensures !EqualsIgnoreCase(slots[i], slots[k]) {
    }
  }

  /** Handing a free slot to a fresh id adds exactly that id to the holders. */
  lemma ClaimSlot(slots: seq<string>, i: int, id: string)
    requires DistinctOccupants(slots)
    requires 0 <= i < |slots| && slots[i] == Free && id != Free
    requires forall k | 0 <= k < |slots| :: !EqualsIgnoreCase(id, slots[k])
    ensures Occupants(slots[i := id]) == Occupants(slots) + {id}
    ensures DistinctOccupants(slots[i := id])
    ensures OccupiedCount(slots[i := id]) == OccupiedCount(slots) + 1
  {
    var after := slots[i := id];
    assert Occupants(after) == Occupants(slots) + {id} by {
      forall x | x in Occupants(slots) ensures x in Occupants(after) {
        var k :| 0 <= k < |slots| && slots[k] != Free && slots[k] == x;
        assert after[k] == x;
      }
      assert after[i] == id;
    }
    forall p, q | 0 <= p < |after| && 0 <= q < |after| && p != q && after[p] != Free
      ensures !EqualsIgnoreCase(after[p], after[q])
    {
      if q == i {
        assert !EqualsIgnoreCase(id, after[p]);
      } else if p != i {
        assert after[p] == slots[p] && after[q] == slots[q];
      }
    }
    OccupiedCountUpdate(slots, i, id);
  }

  /**
   * In a table that is not full, an id unlike every holder takes the lowest
   * free slot and becomes one more, distinct, holder.
   */
  lemma ClaimLowestFree(slots: seq<string>, id: string)
    requires DistinctOccupants(slots) && |Occupants(slots)| < |slots|
    requires id != Free && forall h | h in Occupants(slots) :: !EqualsIgnoreCase(id, h)
    ensures var i := LowestFree(slots);
      && 0 <= i < |slots|
      && id !in Occupants(slots)
      && Occupants(slots[i := id]) == Occupants(slots) + {id}
      && DistinctOccupants(slots[i := id])
  {
    forall k | 0 <= k < |slots| ensures !EqualsIgnoreCase(id, slots[k]) {
      if slots[k] == Free {
        FreeMatchesOnlyEmpty(id);
      } else {
        assert slots[k] in Occupants(slots);
      }
    }
    OccupantsCount(slots);
    FreeSlotWhenNotFull(slots);
    ClaimSlot(slots, LowestFree(slots), id);
    assert EqualsIgnoreCase(id, id);
  }

  /** Freeing a held slot removes exactly its holder. */
  lemma ReleaseSlot(slots: seq<string>, i: int)
    requires DistinctOccupants(slots)
    requires 0 <= i < |slots| && slots[i] != Free
    ensures Occupants(slots[i := Free]) == Occupants(slots) - {slots[i]}
    ensures DistinctOccupants(slots[i := Free])
    ensures OccupiedCount(slots[i := Free]) == OccupiedCount(slots) - 1
  {
    var after := slots[i := Free];
    assert Occupants(after) == Occupants(slots) - {slots[i]} by {
      forall x | x in Occupants(slots) - {slots[i]} ensures x in Occupants(after) {
        var k :| 0 <= k < |slots| && slots[k] != Free && slots[k] == x;
        assert after[k] == x;
      }
      forall x | x in Occupants(after) ensures x != slots[i] {
        var k :| 0 <= k < |after| && after[k] != Free && after[k] == x;
        assert k != i && after[k] == slots[k];
        assert !EqualsIgnoreCase(slots[k], slots[i]);
      }
    }
    OccupiedCountUpdate(slots, i, Free);
  }

  /** A holder is found by `indexOf` at its own slot, and freeing that slot removes exactly that holder. */
  lemma ReleaseHolder(slots: seq<string>, id: string)
    requires DistinctOccupants(slots) && id in Occupants(slots)
    ensures var i := SlotOf(slots, id);
      && 0 <= i < |slots| && slots[i] == id
      && Occupants(slots[i := Free]) == Occupants(slots) - {id}
      && DistinctOccupants(slots[i := Free])
  {
    var k :| 0 <= k < |slots| && slots[k] != Free && slots[k] == id;
    SlotOfHolder(slots, k);
    ReleaseSlot(slots, k);
  }

  /** Overwriting one slot changes the count by the change in that slot alone. */
  lemma {:induction false} OccupiedCountUpdate(slots: seq<string>, i: int, v: string)
    requires 0 <= i < |slots|
    ensures OccupiedCount(slots[i := v]) + (if slots[i] != Free then 1 else 0)
         == OccupiedCount(slots) + (if v != Free then 1 else 0)
  {
    if i > 0 {
      assert slots[i := v][1..] == slots[1..][i - 1 := v];
      OccupiedCountUpdate(slots[1..], i - 1, v);
    } else {
      assert slots[i := v][1..] == slots[1..];
    }
  }
}
