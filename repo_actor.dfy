/** The per-repository actor of registry/actor.go (type RepoActor, lines
    45-131): the flags it owns, the message handler its goroutine runs, and
    its mailbox, modelled as the sequence of messages sent and not yet
    received plus whether the channel has been closed. */
module RepoActors {
  import opened Messages

  /** The three flags the handler reassigns. */
  datatype RepoState = RepoState(active: bool, isDocker: bool, hasPipeline: bool)

  /** What handling messages does: the new flags and the helper calls made. */
  datatype Step = Step(state: RepoState, effects: seq<Effect>)

  /** The flags NewRepoActor starts a repository with. */
  const Fresh := RepoState(true, false, false)

  /** One pass of the `switch` in the actor's receive loop. */
  function Transition(s: RepoState, m: Message): (r: Step)
    // only ToggleRepo touches Active
    ensures !m.ToggleRepo? ==> r.state.active == s.active
    // the configuration flags are never cleared
    ensures s.isDocker ==> r.state.isDocker
    ensures s.hasPipeline ==> r.state.hasPipeline
    // an inactive repository never has a helper run on it
    ensures !s.active ==> r.effects == []
    ensures |r.effects| <= 1
  {
    match m
    case ToggleRepo(_) => Step(s.(active := !s.active), [])
    case ConfigureDocker =>
      if s.active && !s.isDocker then Step(s.(isDocker := true), [DockerfileWritten])
      else Step(s, [])
    case ConfigurePipeline =>
      if s.active && !s.hasPipeline then Step(s.(hasPipeline := true), [PipelineWritten])
      else Step(s, [])
    case InitRepo =>
      if s.active then Step(s, [Initialized]) else Step(s, [])
    case ReportCompletion(_) => Step(s, [])
    case _ => Step(s, [])
  }

  /** Handling `msgs` one after the other, in arrival order. */
  function Process(s: RepoState, msgs: seq<Message>): Step
    decreases |msgs|
  {
    if msgs == [] then Step(s, [])
    else
      var first := Transition(s, msgs[0]);
      var rest := Process(first.state, msgs[1..]);
      Step(rest.state, first.effects + rest.effects)
  }

  /** Number of ToggleRepo messages in `msgs`. */
  function Toggles(msgs: seq<Message>): nat
  {
    if msgs == [] then 0
    else (if msgs[0].ToggleRepo? then 1 else 0) + Toggles(msgs[1..])
  }

  /** ToggleRepo flips Active and nothing else; a second toggle undoes it. */
  lemma ToggleFlipsActive(s: RepoState, n: string, n': string)
    ensures Transition(s, ToggleRepo(n)) == Step(RepoState(!s.active, s.isDocker, s.hasPipeline), [])
    ensures Transition(Transition(s, ToggleRepo(n)).state, ToggleRepo(n')).state == s
  {
  }

  /** ConfigureDocker runs the Dockerfile helper exactly when the repository
      is active and not yet configured, and then sets IsDocker; a repeated
      ConfigureDocker does nothing. */
  lemma ConfigureDockerGuarded(s: RepoState)
    ensures !s.active || s.isDocker ==> Transition(s, ConfigureDocker) == Step(s, [])
    ensures s.active && !s.isDocker ==>
      Transition(s, ConfigureDocker) == Step(s.(isDocker := true), [DockerfileWritten])
    ensures var once := Transition(s, ConfigureDocker).state;
      Transition(once, ConfigureDocker) == Step(once, [])
  {
  }

  /** The same guard and idempotence for ConfigurePipeline and HasPipeline. */
  lemma ConfigurePipelineGuarded(s: RepoState)
    ensures !s.active || s.hasPipeline ==> Transition(s, ConfigurePipeline) == Step(s, [])
    ensures s.active && !s.hasPipeline ==>
      Transition(s, ConfigurePipeline) == Step(s.(hasPipeline := true), [PipelineWritten])
    ensures var once := Transition(s, ConfigurePipeline).state;
      Transition(once, ConfigurePipeline) == Step(once, [])
  {
  }

  /** InitRepo, ReportCompletion and every message the actor does not know
      leave all three flags alone; only InitRepo on an active repository has an
      effect. */
  lemma OtherMessagesKeepFlags(s: RepoState, m: Message)
    requires !m.ToggleRepo? && !m.ConfigureDocker? && !m.ConfigurePipeline?
    ensures Transition(s, m).state == s
    ensures Transition(s, m).effects == if m.InitRepo? && s.active then [Initialized] else []
  {
  }

  /** Handling is serialised: after any mailbox, Active is the initial value
      flipped once per ToggleRepo in it, whatever else was interleaved. */
  lemma {:induction false} ProcessTogglesParity(s: RepoState, msgs: seq<Message>)
    ensures Process(s, msgs).state.active == (s.active != (Toggles(msgs) % 2 == 1))
    decreases |msgs|
  {
    if msgs != [] {
      ProcessTogglesParity(Transition(s, msgs[0]).state, msgs[1..]);
    }
  }

  /** Over any mailbox each helper of the two configuration kinds runs at most
      once per actor: exactly once if its flag went from false to true, and
      never if the flag was already set. */
  lemma {:induction false} ProcessConfiguresAtMostOnce(s: RepoState, msgs: seq<Message>)
    ensures var r := Process(s, msgs);
      && (s.isDocker ==> r.state.isDocker)
      && (s.hasPipeline ==> r.state.hasPipeline)
      && Occurrences(DockerfileWritten, r.effects) == (if !s.isDocker && r.state.isDocker then 1 else 0)
      && Occurrences(PipelineWritten, r.effects) == (if !s.hasPipeline && r.state.hasPipeline then 1 else 0)
    decreases |msgs|
  {
    if msgs != [] {
      var first := Transition(s, msgs[0]);
      var rest := Process(first.state, msgs[1..]);
      ProcessConfiguresAtMostOnce(first.state, msgs[1..]);
      OccurrencesConcat(DockerfileWritten, first.effects, rest.effects);
      OccurrencesConcat(PipelineWritten, first.effects, rest.effects);
    }
  }

  /** An inactive repository that is not toggled gets no effect and no flag
      change from any mailbox. */
  lemma {:induction false} ProcessInactiveNoEffects(s: RepoState, msgs: seq<Message>)
    requires !s.active
    requires Toggles(msgs) == 0
    ensures Process(s, msgs) == Step(s, [])
    decreases |msgs|
  {
    if msgs != [] {
      ProcessInactiveNoEffects(Transition(s, msgs[0]).state, msgs[1..]);
    }
  }

  /** One repository actor. Name and Path are never reassigned by the source. */
  class RepoActor {
    const name: string
    const path: string
    var active: bool
    var isDocker: bool
    var hasPipeline: bool
    /** Messages sent on MsgChan that the receive loop has not taken yet. */
    var mailbox: seq<Message>
    /** Whether MsgChan has been closed. */
    var closed: bool
    /** The helper calls made so far, in order. */
    ghost var effects: seq<Effect>

    function State(): RepoState
      reads this
    {
      RepoState(active, isDocker, hasPipeline)
    }

    /** NewRepoActor: active, unconfigured, with an empty open mailbox. */
    constructor (name: string, path: string)
      ensures this.name == name && this.path == path
      ensures State() == Fresh
      ensures mailbox == [] && !closed && effects == []
    {
      this.name := name;
      this.path := path;
      active := true;
      isDocker := false;
      hasPipeline := false;
      mailbox := [];
      closed := false;
      effects := [];
    }

    /** addDockerfile: writes the Dockerfile; a failure is only printed. */
    method AddDockerfile()
      modifies this`effects
      ensures effects == old(effects) + [DockerfileWritten]
    {
      effects := effects + [DockerfileWritten];
    }

    /** setupPipeline: creates the workflow directory and writes the pipeline
        file; a failure of either step is only printed. */
    method SetupPipeline()
      modifies this`effects
      ensures effects == old(effects) + [PipelineWritten]
    {
      effects := effects + [PipelineWritten];
    }

    /** initializeRepo: the slow initialisation, which cannot fail. */
    method InitializeRepo()
      modifies this`effects
      ensures effects == old(effects) + [Initialized]
    {
      effects := effects + [Initialized];
    }

    /** The body of the receive loop for one message. */
    method Handle(msg: Message)
      modifies this
      ensures State() == Transition(old(State()), msg).state
      ensures effects == old(effects) + Transition(old(State()), msg).effects
      ensures mailbox == old(mailbox) && closed == old(closed)
    {
      match msg
      case ToggleRepo(_) =>
        active := !active;
      case ConfigureDocker =>
        if active && !isDocker {
          AddDockerfile();
          isDocker := true;
        }
      case ConfigurePipeline =>
        if active && !hasPipeline {
          SetupPipeline();
          hasPipeline := true;
        }
      case InitRepo =>
        if active {
          InitializeRepo();
        }
      case ReportCompletion(_) =>
      case _ =>
    }

    /** A send on MsgChan. Sending on a closed channel panics in Go, so the
        sender must know the channel is open. */
    method Send(msg: Message)
      requires !closed
      modifies this
      ensures Appended(this, [msg])
    {
      mailbox := mailbox + [msg];
    }

    /** close(MsgChan). Closing a closed channel panics in Go. */
    method Close()
      requires !closed
      modifies this
      ensures closed
      ensures mailbox == old(mailbox) && State() == old(State()) && effects == old(effects)
    {
      closed := true;
    }

    /** One iteration of `for msg := range r.MsgChan`: take the oldest
        message and handle it. */
    method Receive()
      requires mailbox != []
      modifies this
      ensures mailbox == old(mailbox)[1..] && closed == old(closed)
      ensures State() == Transition(old(State()), old(mailbox)[0]).state
      ensures effects == old(effects) + Transition(old(State()), old(mailbox)[0]).effects
    {
      var msg := mailbox[0];
      mailbox := mailbox[1..];
      Handle(msg);
    }

    /** The receive loop run until every queued message has been handled, in
        arrival order. */
    method DrainMailbox()
      modifies this
      ensures mailbox == [] && closed == old(closed)
      ensures State() == Process(old(State()), old(mailbox)).state
      ensures effects == old(effects) + Process(old(State()), old(mailbox)).effects
    {
      while mailbox != []
        invariant closed == old(closed)
        invariant Process(State(), mailbox).state == Process(old(State()), old(mailbox)).state
        invariant effects + Process(State(), mailbox).effects
               == old(effects) + Process(old(State()), old(mailbox)).effects
        decreases |mailbox|
      {
        ghost var before := effects;
        ghost var step := Transition(State(), mailbox[0]);
        ghost var rest := Process(step.state, mailbox[1..]);
        Receive();
        assert before + (step.effects + rest.effects) == (before + step.effects) + rest.effects;
      }
    }
  }

  /** `a`'s mailbox grew by `sent` and nothing else about `a` changed. */
  twostate predicate Appended(a: RepoActor, sent: seq<Message>)
    reads a
  {
    && a.mailbox == old(a.mailbox) + sent
    && a.closed == old(a.closed)
    && a.State() == old(a.State())
    && a.effects == old(a.effects)
  }
}
