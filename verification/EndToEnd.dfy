/** From a text to the results: the parts put together. */
module EndToEnd {
  import opened Types
  import opened Metric
  import opened Problems
  import opened Lexing
  import opened Parsing
  import opened Format
  import opened MpiRuntime
  import opened Runtime

  /** Rank 0 reads a text and broadcasts what it read. Then every other rank holds
      the same problem, and every run of the ranks without a fault, whatever their
      number, their backends, their schedules and their arithmetic's rounding, ends
      with rank 0 holding the canonical match of every picture in input order. */
  lemma TextDeterminesResults(strtod: Strtod, text: string, p: Problem, w: Wire)
    requires Parse(strtod, Tokens(text)) == Success(p) && Sends(p, w)
    ensures Loaded(p) && w.Consistent() && Received(w) == Success(p)
    ensures forall ar: Arithmetic, backends, reserves, run: seq<World>
              | ar.Sound() && IsRun(JobOf(p, ar, backends, reserves), run)
                && AllAt(run[|run| - 1], Done) && run[|run| - 1].faults == 0 ::
              run[|run| - 1].matches == CanonArray(p, ar)
  {
    ParsedIsLoaded(strtod, Tokens(text));
    BroadcastReplicates(p, w);
    forall ar: Arithmetic, backends, reserves, run: seq<World>
      | ar.Sound() && IsRun(JobOf(p, ar, backends, reserves), run)
        && AllAt(run[|run| - 1], Done) && run[|run| - 1].faults == 0
      ensures run[|run| - 1].matches == CanonArray(p, ar)
    {
      MpiEqualsLocal(p, ar, backends, reserves, run);
    }
  }
}
