/** The message and effect vocabulary shared by the three actors of
    registry/actor.go. */
module Messages {

  /** Every message type the file declares for a `chan Message`. Go's `Message`
      is the empty interface, so any of these values can reach any actor; an
      actor with no case for one of them treats it as unknown. */
  datatype Message =
    | AddRepo(name: string, path: string)
    | RemoveRepo(name: string)
    | ScanDir(directory: string)
    | ToggleRepo(name: string)
    | ConfigureRepo(name: string)
    | ReportCompletion(name: string)
    | ConfigureDocker
    | ConfigurePipeline
    | InitRepo

  /** An abstract record of one call of a repository actor's side-effecting
      helper: writing the Dockerfile, writing the pipeline file, or the slow
      initialisation. The helpers only print their failures, so a record means
      that the helper ran, not that the file system accepted the write. */
  datatype Effect = DockerfileWritten | PipelineWritten | Initialized

  /** Number of occurrences of `e` in `es`. */
  function Occurrences(e: Effect, es: seq<Effect>): nat
  {
    if es == [] then 0
    else (if es[0] == e then 1 else 0) + Occurrences(e, es[1..])
  }

  /** Counting distributes over concatenation of effect traces. */
  lemma {:induction false} OccurrencesConcat(e: Effect, a: seq<Effect>, b: seq<Effect>)
    ensures Occurrences(e, a + b) == Occurrences(e, a) + Occurrences(e, b)
    decreases |a|
  {
    if a != [] {
      assert (a + b)[1..] == a[1..] + b;
      OccurrencesConcat(e, a[1..], b);
    } else {
      assert a + b == b;
    }
  }
}
