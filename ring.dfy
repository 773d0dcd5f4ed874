/**
 * The index arithmetic of the component's point history: a pool of slots
 * addressed by a head index and a count, modulo the capacity.
 * Logical element 0 is the oldest point, element count-1 the newest.
 */
module Ring {

  /** The last (at most) m elements of s: what a ring of capacity m keeps of the appends s. */
  function Window<T>(s: seq<T>, m: nat): seq<T>
  {
    if |s| <= m then s else s[|s| - m..]
  }

  /** s without its k oldest elements, removed one at a time. */
  function DropFront<T>(s: seq<T>, k: nat): (r: seq<T>)
    requires k <= |s|
    ensures |r| == |s| - k
    decreases k
  {
    if k == 0 then s else DropFront(s[1..], k - 1)
  }

  /** Physical slot of logical element i, for a ring of capacity m whose oldest element is at head. */
  function Slot(head: nat, i: nat, m: nat): nat
    requires m > 0
  {
    (head + i) % m
  }

  /** The logical contents of a ring: element i is read from Slot(head, i, m). */
  function Logical<T>(pool: seq<T>, head: nat, count: nat, m: nat): (r: seq<T>)
    requires 0 < m <= |pool| && count <= m
    ensures |r| == count
  {
    seq(count, i requires 0 <= i < count => pool[Slot(head, i, m)])
  }

  /** Appending p to the ring, one element at a time, starting from the contents h. */
  function AppendAll<T>(h: seq<T>, ps: seq<T>, m: nat): seq<T>
    decreases |ps|
  {
    if ps == [] then h else AppendAll(Window(h + [ps[0]], m), ps[1..], m)
  }

  /** Euclidean remainder of a value below twice the modulus. */
  lemma ModBelowTwice(x: nat, m: nat)
    requires 0 < m && x < 2 * m
    ensures x % m == if x < m then x else x - m
  {
    if x < m {
      assert x == m * 0 + x;
    } else {
      assert x == m * 1 + (x - m);
    }
  }

  /** The first m logical positions of a ring occupy m different slots. */
  lemma SlotsDistinct(head: nat, i: nat, j: nat, m: nat)
    requires head < m && i < j < m
    ensures Slot(head, i, m) != Slot(head, j, m)
  {
    ModBelowTwice(head + i, m);
    ModBelowTwice(head + j, m);
  }

  /** Advancing the head by one slot shifts every logical position down by one. */
  lemma ShiftSlot(head: nat, i: nat, m: nat)
    requires head < m && i < m
    ensures Slot(Slot(head, 1, m), i, m) == Slot(head, i + 1, m)
  {
    ModBelowTwice(head + 1, m);
    ModBelowTwice(head + i + 1, m);
    ModBelowTwice(Slot(head, 1, m) + i, m);
  }

  /**
   * Appending to a ring that is not full: writing slot (head + count) mod m
   * and growing the count adds p as the newest element and keeps the rest.
   */
  lemma AppendNotFull<T>(pool: seq<T>, head: nat, count: nat, m: nat, p: T)
    requires 0 < m <= |pool| && head < m && count < m
    ensures Logical(pool[Slot(head, count, m) := p], head, count + 1, m)
            == Logical(pool, head, count, m) + [p]
  {
    var after := Logical(pool[Slot(head, count, m) := p], head, count + 1, m);
    var before := Logical(pool, head, count, m);
    forall i | 0 <= i < count
      ensures after[i] == before[i]
    {
      SlotsDistinct(head, i, count, m);
    }
  }

  /**
   * Appending to a full ring: overwriting the oldest slot and advancing the
   * head drops the oldest element and adds p as the newest.
   */
  lemma AppendFull<T>(pool: seq<T>, head: nat, m: nat, p: T)
    requires 0 < m <= |pool| && head < m
    ensures Slot(head, 1, m) < m
    ensures Logical(pool[head := p], Slot(head, 1, m), m, m)
            == Logical(pool, head, m, m)[1..] + [p]
  {
    var after := Logical(pool[head := p], Slot(head, 1, m), m, m);
    var before := Logical(pool, head, m, m);
    forall i | 0 <= i < m
      ensures after[i] == (before[1..] + [p])[i]
    {
      ShiftSlot(head, i, m);
      ModBelowTwice(head + i + 1, m);
      if i + 1 < m {
        SlotsDistinct(head, 0, i + 1, m);
        ModBelowTwice(head, m);
      }
    }
  }

  /** Advancing the head of a non-empty ring drops exactly its oldest element. */
  lemma DropOldest<T>(pool: seq<T>, head: nat, count: nat, m: nat)
    requires 0 < m <= |pool| && head < m && 0 < count <= m
    ensures Slot(head, 1, m) < m
    ensures Logical(pool, Slot(head, 1, m), count - 1, m) == Logical(pool, head, count, m)[1..]
  {
    ModBelowTwice(head + 1, m);
    var after := Logical(pool, Slot(head, 1, m), count - 1, m);
    var before := Logical(pool, head, count, m);
    forall i | 0 <= i < count - 1
      ensures after[i] == before[1..][i]
    {
      ShiftSlot(head, i, m);
    }
  }

  /** Removing the k oldest elements one at a time leaves the suffix from k. */
  lemma {:induction false} DropFrontIsSuffix<T>(s: seq<T>, k: nat)
    requires k <= |s|
    ensures DropFront(s, k) == s[k..]
    decreases k
  {
    if k > 0 {
      DropFrontIsSuffix(s[1..], k - 1);
      assert s[1..][k - 1..] == s[k..];
    }
  }

  /** Keeping the last m of the last m of s, extended by t, is keeping the last m of s + t. */
  lemma {:induction false} WindowAbsorbs<T>(s: seq<T>, t: seq<T>, m: nat)
    ensures Window(Window(s, m) + t, m) == Window(s + t, m)
  {
    if |s| > m {
      var w := s[|s| - m..];
      assert s + t == s[..|s| - m] + (w + t);
      assert (s + t)[|s + t| - m..] == (w + t)[|w + t| - m..];
    }
  }

  /**
   * A ring of capacity m that starts with at most m elements and receives the
   * appends ps holds the last (at most) m elements of everything appended.
   */
  lemma {:induction false} AppendAllIsWindow<T>(h: seq<T>, ps: seq<T>, m: nat)
    requires |h| <= m
    ensures AppendAll(h, ps, m) == Window(h + ps, m)
    decreases |ps|
  {
    if ps != [] {
      var h' := Window(h + [ps[0]], m);
      AppendAllIsWindow(h', ps[1..], m);
      WindowAbsorbs(h + [ps[0]], ps[1..], m);
      assert h + [ps[0]] + ps[1..] == h + ps;
    }
  }

  /** So a ring that starts empty holds the newest min(k, m) of its k appends, oldest first. */
  lemma RingKeepsNewest<T>(ps: seq<T>, m: nat)
    ensures |AppendAll([], ps, m)| == if |ps| <= m then |ps| else m
    ensures forall i :: 0 <= i < |AppendAll([], ps, m)| ==>
              AppendAll([], ps, m)[i] == ps[|ps| - |AppendAll([], ps, m)| + i]
  {
    AppendAllIsWindow([], ps, m);
    assert [] + ps == ps;
  }
}
