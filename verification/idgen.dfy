/**
 * The identifier generator every record store owns: one counter, starting at
 * 1, that hands out its current value and moves on by one. It takes no
 * argument, so whatever the caller passes along (the record's type tag) has no
 * influence on the identifiers it produces.
 */
module IdGen {

  datatype Generator = Generator(nextId: int)

  /** One call of `generate()`: the identifier handed out and the generator after it. */
  datatype Drawn = Drawn(id: int, gen: Generator)

  /** A new generator; every instance starts from the same state, independent of any other. */
  function New(): (g: Generator)
    ensures g.nextId == 1
  {
    Generator(1)
  }

  /** `generate()`: the next identifier, one below the next one it will hand out. */
  function Generate(g: Generator): (d: Drawn)
    ensures d.id == g.nextId && d.gen.nextId == d.id + 1
  {
    Drawn(g.nextId, Generator(g.nextId + 1))
  }

  /** The identifiers of `n` successive calls, and the generator after them. */
  datatype Run = Run(ids: seq<int>, gen: Generator)

  /** `n` successive calls of `generate()`: consecutive identifiers with no gap and no repeat. */
  function GenerateMany(g: Generator, n: nat): (r: Run)
    ensures |r.ids| == n
    ensures forall i :: 0 <= i < n ==> r.ids[i] == g.nextId + i
    ensures r.gen.nextId == g.nextId + n
    decreases n
  {
    if n == 0 then Run([], g)
    else
      var first := Generate(g);
      var rest := GenerateMany(first.gen, n - 1);
      Run([first.id] + rest.ids, rest.gen)
  }

  /** The run from a fresh generator is 1, 2, ..., n. */
  lemma FreshRun(n: nat)
    ensures forall i :: 0 <= i < n ==> GenerateMany(New(), n).ids[i] == i + 1
  {
  }

  /** No generator hands out an identifier twice: its identifiers strictly increase. */
  lemma RunStrictlyIncreasing(g: Generator, n: nat, i: nat, j: nat)
    requires i < j < n
    ensures GenerateMany(g, n).ids[i] < GenerateMany(g, n).ids[j]
  {
  }

  /**
   * Two runs of `m` and then `n` calls are one run of `m + n` calls: a
   * generator keeps no state beyond its counter, so splitting a run changes
   * nothing about the identifiers produced.
   */
  lemma RunsCompose(g: Generator, m: nat, n: nat)
    ensures GenerateMany(g, m + n).ids == GenerateMany(g, m).ids + GenerateMany(GenerateMany(g, m).gen, n).ids
    ensures GenerateMany(g, m + n).gen == GenerateMany(GenerateMany(g, m).gen, n).gen
  {
  }
}
