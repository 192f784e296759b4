/** Board coordinates, the 8-neighbour enumeration, and the duplicate-free
    sequences that stand for the engine's coordinate Vectors. */
module Coordinates {

  /** A board index: an unbounded pair of signed integers, compared structurally. */
  datatype Coordinate = Coordinate(x: int, y: int)

  /** `d` is one of the 8 cells at Chebyshev distance 1 from `c`. */
  predicate Adjacent(c: Coordinate, d: Coordinate)
  {
    c != d && -1 <= d.x - c.x <= 1 && -1 <= d.y - c.y <= 1
  }

  /** No coordinate occurs twice: how the engine uses its Vectors. */
  predicate NoDuplicates(s: seq<Coordinate>)
  {
    forall i, j :: 0 <= i < j < |s| ==> s[i] != s[j]
  }

  /** The neighbours of `c` in the order GameLogic enumerates them:
      the column to the right, the column to the left, then above and below. */
  function Neighbors(c: Coordinate): (ns: seq<Coordinate>)
    ensures |ns| == 8
    ensures NoDuplicates(ns)
    ensures forall d :: d in ns <==> Adjacent(c, d)
  {
    [Coordinate(c.x + 1, c.y + 1), Coordinate(c.x + 1, c.y), Coordinate(c.x + 1, c.y - 1),
     Coordinate(c.x - 1, c.y + 1), Coordinate(c.x - 1, c.y), Coordinate(c.x - 1, c.y - 1),
     Coordinate(c.x, c.y + 1), Coordinate(c.x, c.y - 1)]
  }

  /** `s` after a contains-guarded `add(c)`: `c` is appended only when absent. */
  function Adjoin(s: seq<Coordinate>, c: Coordinate): (r: seq<Coordinate>)
    ensures forall d :: d in r <==> d in s || d == c
    ensures NoDuplicates(s) ==> NoDuplicates(r)
    ensures s <= r && |r| <= |s| + 1
  {
    if c in s then s else s + [c]
  }

  /** Adding a coordinate that is already present changes nothing, so
      adding twice is the same as adding once. */
  lemma AdjoinIdempotent(s: seq<Coordinate>, c: Coordinate)
    ensures Adjoin(Adjoin(s, c), c) == Adjoin(s, c)
    ensures c in s ==> Adjoin(s, c) == s
  {
  }

  /** How many entries of `ns` occur in `s` (a stream filter-and-count):
      for distinct candidates, the number of candidates that are in `s`. */
  function CountIn(ns: seq<Coordinate>, s: seq<Coordinate>): (n: nat)
    ensures n <= |ns|
    ensures n == 0 <==> forall d :: d in ns ==> d !in s
    ensures NoDuplicates(ns) ==> n == |set d | d in ns && d in s|
  {
    if ns == [] then 0
    else
      CountInSplit(ns, s);
      (if ns[0] in s then 1 else 0) + CountIn(ns[1..], s)
  }

  /** The candidates found in `s` are the first one, if found, and those
      found among the rest; without duplicates the first is not among the rest. */
  lemma CountInSplit(ns: seq<Coordinate>, s: seq<Coordinate>)
    requires ns != []
    ensures (set d | d in ns && d in s)
            == (if ns[0] in s then {ns[0]} else {}) + (set d | d in ns[1..] && d in s)
    ensures NoDuplicates(ns) ==> NoDuplicates(ns[1..]) && ns[0] !in ns[1..]
  {
    assert ns == [ns[0]] + ns[1..];
    if NoDuplicates(ns) {
      forall i | 0 <= i < |ns[1..]| ensures ns[1..][i] != ns[0] {
        assert ns[1..][i] == ns[i + 1];
      }
    }
  }

  /** The entries of `ns` that are not in `s`, in their original order. */
  function Outside(ns: seq<Coordinate>, s: seq<Coordinate>): (r: seq<Coordinate>)
    ensures forall d :: d in r <==> d in ns && d !in s
    ensures |r| <= |ns|
    ensures NoDuplicates(ns) ==> NoDuplicates(r)
  {
    if ns == [] then []
    else
      var last := ns[|ns| - 1];
      assert ns == ns[..|ns| - 1] + [last];
      Outside(ns[..|ns| - 1], s) + (if last in s then [] else [last])
  }

  /** Two duplicate-free sequences with no common entry concatenate to a
      duplicate-free sequence. */
  lemma NoDuplicatesConcat(a: seq<Coordinate>, b: seq<Coordinate>)
    requires NoDuplicates(a) && NoDuplicates(b)
    requires forall d :: d in a ==> d !in b
    ensures NoDuplicates(a + b)
  {
    forall i, j | 0 <= i < j < |a + b| ensures (a + b)[i] != (a + b)[j] {
      if j < |a| {
      } else if i >= |a| {
        assert (a + b)[i] == b[i - |a|] && (a + b)[j] == b[j - |a|];
      } else {
        assert (a + b)[i] == a[i] && (a + b)[j] == b[j - |a|];
        assert a[i] in a;
      }
    }
  }

  /** Appending a coordinate that is absent keeps a sequence duplicate-free. */
  lemma AppendNew(s: seq<Coordinate>, c: Coordinate)
    requires c !in s
    ensures NoDuplicates(s) ==> NoDuplicates(s + [c])
  {
    if NoDuplicates(s) {
      NoDuplicatesConcat(s, [c]);
    }
  }

  /** The set of entries of a sequence. */
  ghost function Elements(s: seq<Coordinate>): set<Coordinate>
  {
    set d | d in s
  }

  /** A duplicate-free sequence has exactly as many elements as entries. */
  lemma {:induction false} ElementsOfDistinct(s: seq<Coordinate>)
    requires NoDuplicates(s)
    ensures |Elements(s)| == |s|
  {
    if s != [] {
      var init := s[..|s| - 1];
      var last := s[|s| - 1];
      assert s == init + [last];
      assert NoDuplicates(init);
      ElementsOfDistinct(init);
      assert last !in init;
      assert Elements(s) == Elements(init) + {last};
    }
  }

  /** A sequence never has more distinct elements than entries. */
  lemma {:induction false} ElementsBound(s: seq<Coordinate>)
    ensures |Elements(s)| <= |s|
  {
    if s != [] {
      var init := s[..|s| - 1];
      var last := s[|s| - 1];
      assert s == init + [last];
      ElementsBound(init);
      assert Elements(s) == Elements(init) + {last};
    }
  }

  /** Pigeonhole: a duplicate-free sequence whose entries all occur in `b`
      is no longer than `b`. */
  lemma DistinctWithin(a: seq<Coordinate>, b: seq<Coordinate>)
    requires NoDuplicates(a)
    requires forall d :: d in a ==> d in b
    ensures |a| <= |b|
  {
    ElementsOfDistinct(a);
    ElementsBound(b);
    var ea, eb := Elements(a), Elements(b);
    assert ea <= eb;
    assert eb == ea + (eb - ea);
    assert |eb| == |ea| + |eb - ea|;
  }
}
