/**
 * The initial population of a window: every (hydrogen, acceptor) pair of the
 * distance matrix, read row by row, that is not excluded and satisfies both
 * geometric criteria at the window's start frame.
 */
module Seeding {
  import opened Bonds

  /** The seed pairs of row `h` among acceptors `0 .. upto - 1`. */
  function SeedRow(bonded: Bonded, start: nat, excl: seq<Pair>, h: nat, upto: nat): (r: seq<Pair>)
    ensures forall p :: p in r <==> p.h == h && p.a < upto && p !in excl && bonded(start, p.h, p.a)
    ensures Ordered(r)
    decreases upto
  {
    if upto == 0 then []
    else
      var rest := SeedRow(bonded, start, excl, h, upto - 1);
      var p := Pair(h, upto - 1);
      var last := if p !in excl && bonded(start, h, upto - 1) then [p] else [];
      OrderedConcat(rest, last);
      rest + last
  }

  /** The seed pairs of rows `0 .. rows - 1`, each row over acceptors `0 .. na - 1`. */
  function SeedRows(bonded: Bonded, start: nat, excl: seq<Pair>, na: nat, rows: nat): (r: seq<Pair>)
    ensures forall p :: p in r <==> p.h < rows && p.a < na && p !in excl && bonded(start, p.h, p.a)
    ensures Ordered(r)
    decreases rows
  {
    if rows == 0 then []
    else
      var rest := SeedRows(bonded, start, excl, na, rows - 1);
      var row := SeedRow(bonded, start, excl, rows - 1, na);
      OrderedConcat(rest, row);
      rest + row
  }

  /**
   * The seed of a window starting at `start`: the `numpy.where` of the
   * masked distance test followed by the angle test, over `nh` hydrogens and
   * `na` acceptors. A pair listed in `excl` has its distance forced above the
   * cutoff, so it never passes. The result holds each qualifying pair once,
   * in row-major order, and no excluded pair.
   */
  function Seed(bonded: Bonded, start: nat, nh: nat, na: nat, excl: seq<Pair>): (r: seq<Pair>)
    ensures Ordered(r)
    ensures forall p :: p in r <==> p.h < nh && p.a < na && p !in excl && bonded(start, p.h, p.a)
    ensures forall p :: p in excl ==> p !in r
  {
    SeedRows(bonded, start, excl, na, nh)
  }
}
