/** Scores of the search, extended with the -Infinity and +Infinity sentinels the
    search starts its running maximum and minimum from. */
module ExtValues {

  datatype Ext = NegInf | Fin(n: int) | PosInf

  /** The order of JavaScript numbers restricted to integers and the two infinities. */
  predicate Le(x: Ext, y: Ext)
  {
    match (x, y)
    case (NegInf, _) => true
    case (_, PosInf) => true
    case (Fin(a), Fin(b)) => a <= b
    case _ => false
  }

  predicate Lt(x: Ext, y: Ext)
  {
    Le(x, y) && x != y
  }

  /** `Math.max` */
  function Max(x: Ext, y: Ext): (r: Ext)
    ensures Le(x, r) && Le(y, r)
    ensures r == x || r == y
  {
    if Le(x, y) then y else x
  }

  /** `Math.min` */
  function Min(x: Ext, y: Ext): (r: Ext)
    ensures Le(r, x) && Le(r, y)
    ensures r == x || r == y
  {
    if Le(x, y) then x else y
  }

  lemma LeTotal(x: Ext, y: Ext)
    ensures Le(x, y) || Le(y, x)
  {
  }

  lemma LeAntisymmetric(x: Ext, y: Ext)
    requires Le(x, y) && Le(y, x)
    ensures x == y
  {
  }

  lemma LeTransitive(x: Ext, y: Ext, z: Ext)
    requires Le(x, y) && Le(y, z)
    ensures Le(x, z)
  {
  }

  lemma MaxAssociative(x: Ext, y: Ext, z: Ext)
    ensures Max(Max(x, y), z) == Max(x, Max(y, z))
  {
  }

  lemma MinAssociative(x: Ext, y: Ext, z: Ext)
    ensures Min(Min(x, y), z) == Min(x, Min(y, z))
  {
  }
}
