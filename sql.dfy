/** The parameterised multi-row INSERT both controllers build: a VALUES list
    of `($a, $b, $c, ...)` tuples and a flat parameter list, where the
    database reads placeholder `$p` as the `p`-th parameter. */
module Sql {
  import opened Js

  /** A bind parameter. */
  datatype Param = Num(n: int) | Str(s: string)

  /** The placeholder numbers of one three-column VALUES tuple; any constant
      columns of the tuple are written literally and are not represented. */
  datatype Tuple = Tuple(first: nat, second: nat, third: nat)

  /** What the database substitutes for `$p`: nothing when `p` is out of
      range, which makes the statement fail. */
  function Placeholder(p: nat, params: seq<Param>): (r: Option<Param>)
    ensures r.Some? <==> 1 <= p <= |params|
    ensures r.Some? ==> r.value == params[p - 1]
  {
    if 1 <= p <= |params| then Some(params[p - 1]) else None
  }

  /** The numbering both builders produce for `n` rows: tuple `i` refers to
      placeholders `3i+1`, `3i+2` and `3i+3`, so every parameter is used by
      exactly one tuple. */
  predicate NumberedByThrees(values: seq<Tuple>, n: nat) {
    |values| == n && forall i :: 0 <= i < n ==> values[i] == Tuple(3 * i + 1, 3 * i + 2, 3 * i + 3)
  }

  /** Under that numbering each placeholder names the parameter slot of its
      own row and column, and no two placeholders name the same slot. */
  lemma ThreesAreDisjoint(values: seq<Tuple>, n: nat, i: nat, j: nat)
    requires NumberedByThrees(values, n) && i < n && j < n
    ensures values[i].first - 1 == 3 * i && values[i].second - 1 == 3 * i + 1 && values[i].third - 1 == 3 * i + 2
    ensures values[i].third <= 3 * n
    ensures i != j ==> {values[i].first, values[i].second, values[i].third} !! {values[j].first, values[j].second, values[j].third}
  {
  }
}
