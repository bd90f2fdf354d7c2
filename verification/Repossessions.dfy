/** The rows of the repossessions table (src/6model/serialization.c), written when the work lists
    are worked off; their contexts may be new dependencies. */
module Repossessions {
  import opened Wrappers
  import opened Tables
  import opened Values
  import opened Closures

  /** What was taken over: an STable or an object, its slot, and where it was. */
  datatype Repossession = Repossession(isStable: bool, slot: nat, orig: Sc, origIdx: nat)
  datatype RepoRow = RepoRow(kind: nat, slot: nat, orig: Place)

  /** `serialize_repossessions`. */
  function SerializeRepos(w: Writer, reps: seq<Repossession>): (r: (Writer, seq<RepoRow>))
    ensures |r.1| == |reps|
  {
    if reps == [] then (w, [])
    else
      var rep := reps[|reps| - 1];
      var (w1, rows) := SerializeRepos(w, reps[..|reps| - 1]);
      var (w2, id) := ScId(w1, rep.orig);
      (w2, rows + [RowOf(rep, id)])
  }

  function RowOf(rep: Repossession, id: nat): RepoRow {
    RepoRow(if rep.isStable then 1 else 0, rep.slot, Place(id, rep.origIdx))
  }

  /** A reader finds what was taken over, and from where. */
  ghost predicate RepoReads(t: Tables, row: RepoRow, rep: Repossession) {
    && (row.kind == 1) == rep.isStable && row.slot == rep.slot
    && LocateSc(t, row.orig.id) == Ok(rep.orig) && row.orig.idx == rep.origIdx
  }

  ghost predicate AllRead(t: Tables, rows: seq<RepoRow>, reps: seq<Repossession>) {
    |rows| == |reps| && forall i | 0 <= i < |rows| :: RepoReads(t, rows[i], reps[i])
  }

  lemma RepoReadsLater(t: Tables, t': Tables, row: RepoRow, rep: Repossession)
    requires RepoReads(t, row, rep) && TablesExtend(t, t')
    ensures RepoReads(t', row, rep)
  {}

  /** Every row leads to the former context and the index there; items and their places are left
      alone. */
  lemma {:induction false} ReposOk(env: World, w: Writer, reps: seq<Repossession>)
    requires WriterOk(env.foreign, w)
    ensures var (w', rows) := SerializeRepos(w, reps);
            && WriterOk(env.foreign, w') && Grows(env, w, w') && OnlyStringsAndDeps(w, w')
            && AllRead(w'.tabs, rows, reps)
    decreases |reps|
  {
    if reps != [] {
      var n := |reps| - 1;
      var (w1, rows) := SerializeRepos(w, reps[..n]);
      var (w2, id) := ScId(w1, reps[n].orig);
      ReposOk(env, w, reps[..n]);
      ScIdOk(env.foreign, w1, reps[n].orig);
      NumberLocates(w2.tabs, reps[n].orig);
      ExtendsTransitive(w, w1, w2);
      forall i | 0 <= i < n ensures RepoReads(w2.tabs, rows[i], reps[i]) {
        assert RepoReads(w1.tabs, rows[i], reps[..n][i]);
        RepoReadsLater(w1.tabs, w2.tabs, rows[i], reps[i]);
      }
    }
  }
}
