/** The canonical chunk order: x first, then y, then z. It is the order in
    which the store is written and the order the edit buffer is sorted into. */
module ChunkOrder {
  import opened Coords

  /** `operator<` on two edits, read on their chunk coordinates. */
  predicate Less(a: Vec3, b: Vec3) {
    if a.x < b.x then true
    else if a.x > b.x then false
    else if a.y < b.y then true
    else if a.y > b.y then false
    else if a.z < b.z then true
    else if a.z > b.z then false
    else false
  }

  /** `operator>` on two edits, read on their chunk coordinates. */
  predicate Greater(a: Vec3, b: Vec3) {
    if a.x > b.x then true
    else if a.x < b.x then false
    else if a.y > b.y then true
    else if a.y < b.y then false
    else if a.z > b.z then true
    else if a.z < b.z then false
    else false
  }

  /** `Less` is a strict order: irreflexive, asymmetric and transitive. */
  lemma LessIsStrictOrder(a: Vec3, b: Vec3, c: Vec3)
    ensures !Less(a, a)
    ensures Less(a, b) ==> !Less(b, a)
    ensures Less(a, b) && Less(b, c) ==> Less(a, c)
  {
  }

  /** Any two distinct coordinates are comparable, so the order is total. */
  lemma LessIsTotal(a: Vec3, b: Vec3)
    ensures a == b || Less(a, b) || Less(b, a)
  {
  }

  /** `operator>` is exactly the converse of `operator<`; neither holds of equal coordinates. */
  lemma GreaterIsConverse(a: Vec3, b: Vec3)
    ensures Greater(a, b) <==> Less(b, a)
    ensures a == b ==> !Less(a, b) && !Greater(a, b)
  {
  }

  /** Lexicographic reading of `Less`. */
  lemma LessIsLexicographic(a: Vec3, b: Vec3)
    ensures Less(a, b) <==>
      (a.x < b.x || (a.x == b.x && (a.y < b.y || (a.y == b.y && a.z < b.z))))
  {
  }

  /** Mixed transitivity: if `a` is before `b` and `c` is not before `b`,
      then `a` is before `c`. */
  lemma NotAfterThenBefore(a: Vec3, b: Vec3, c: Vec3)
    requires Less(a, b) && !Less(c, b)
    ensures Less(a, c)
  {
  }

  /** Position of chunk `c` in a store generated for `d` (x outer, z inner). */
  function Rank(c: Vec3, d: Dims): int {
    (c.x * d.y + c.y) * d.z + c.z
  }

  /** The rank of a coordinate splits into an x block of `dim.y * dim.z` records
      and an offset inside it. */
  lemma RankSplit(c: Vec3, d: Dims)
    requires InDim(c, d)
    ensures Rank(c, d) == c.x * (d.y * d.z) + (c.y * d.z + c.z)
    ensures 0 <= c.y * d.z + c.z < d.y * d.z
    ensures 0 <= Rank(c, d) < d.x * (d.y * d.z)
  {
    var p := d.y * d.z;
    var lo := c.y * d.z + c.z;
    RankExpand(c.x, c.y, c.z, d.y, d.z);
    DigitBelowBase(c.y, c.z, d.y, d.z);
    DigitBelowBase(c.x, lo, d.x, p);
  }

  /** `(x * ny + y) * nz + z == x * (ny * nz) + (y * nz + z)`. */
  lemma RankExpand(x: int, y: int, z: int, ny: int, nz: int)
    ensures (x * ny + y) * nz + z == x * (ny * nz) + (y * nz + z)
  {
    assert (x * ny + y) * nz == (x * ny) * nz + y * nz;
    assert (x * ny) * nz == x * (ny * nz);
  }

  /** A digit below its base followed by a remainder below its unit stays below the next unit. */
  lemma DigitBelowBase(a: int, r: int, n: int, base: int)
    requires 0 <= a < n && 0 <= r < base
    ensures 0 <= a * base + r < n * base
  {
    MulMonotone(0, a, base);
    MulMonotone(a + 1, n, base);
    assert (a + 1) * base == a * base + base;
  }

  /** Comparing the leading digit of two mixed-radix numbers. */
  lemma LeadingDigit(a: int, b: int, ra: int, rb: int, base: int)
    requires 0 <= ra < base && 0 <= rb < base
    ensures a < b ==> a * base + ra < b * base + rb
    ensures a == b ==> (a * base + ra < b * base + rb <==> ra < rb)
  {
    if a < b {
      MulMonotone(a + 1, b, base);
    }
  }

  /** On the coordinates of one world, the canonical order is the order of ranks,
      that is, the order of records in a generated store. */
  lemma LessMatchesRank(a: Vec3, b: Vec3, d: Dims)
    requires InDim(a, d) && InDim(b, d)
    ensures Less(a, b) <==> Rank(a, d) < Rank(b, d)
  {
    RankSplit(a, d);
    RankSplit(b, d);
    LeadingDigit(a.x, b.x, a.y * d.z + a.z, b.y * d.z + b.z, d.y * d.z);
    LeadingDigit(b.x, a.x, b.y * d.z + b.z, a.y * d.z + a.z, d.y * d.z);
    LeadingDigit(a.y, b.y, a.z, b.z, d.z);
    LeadingDigit(b.y, a.y, b.z, a.z, d.z);
  }

  /** Distinct coordinates of one world have distinct ranks. */
  lemma RankInjective(a: Vec3, b: Vec3, d: Dims)
    requires InDim(a, d) && InDim(b, d)
    requires Rank(a, d) == Rank(b, d)
    ensures a == b
  {
    LessMatchesRank(a, b, d);
    LessMatchesRank(b, a, d);
    LessIsTotal(a, b);
  }
}
