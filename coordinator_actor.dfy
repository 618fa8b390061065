/** The dependency coordinator of registry/actor.go (type CoordinatorActor,
    lines 270-342). Go walks `c.Graph` in an unspecified order, so the walk
    order is a parameter: every property below holds for each order. */
module Coordinators {
  import Messages
  import opened RepoActors
  import opened RegistryActors

  /** Every dependency in `deps` is completed. */
  predicate AllCompleted(deps: seq<string>, completed: set<string>)
  {
    forall i :: 0 <= i < |deps| ==> deps[i] in completed
  }

  /** `order` lists every key of `keys` exactly once, as `range` over a Go
      map does. */
  predicate Enumerates(order: seq<string>, keys: set<string>)
  {
    && (forall i, j :: 0 <= i < j < |order| ==> order[i] != order[j])
    && (forall i :: 0 <= i < |order| ==> order[i] in keys)
    && (forall k :: k in keys ==> k in order)
  }

  /** The result of one evaluation pass: the completion set at its end, the
      entries it sent the two configuration messages to, and
      whether it stopped on an entry missing from the registry, where the Go
      code dereferences a nil actor and panics. */
  datatype PassResult = PassResult(completed: set<string>, triggered: set<string>, panicked: bool)

  /** The loop of handleCompletion over the entries in `order`, reading and
      extending the completion set as it goes. */
  function Pass(graph: map<string, seq<string>>, completed: set<string>,
                order: seq<string>, registered: set<string>): PassResult
    requires forall i :: 0 <= i < |order| ==> order[i] in graph
    decreases |order|
  {
    if order == [] then PassResult(completed, {}, false)
    else
      var repo := order[0];
      if repo !in completed && AllCompleted(graph[repo], completed) then
        if repo !in registered then PassResult(completed, {}, true)
        else
          var rest := Pass(graph, completed + {repo}, order[1..], registered);
          PassResult(rest.completed, {repo} + rest.triggered, rest.panicked)
      else Pass(graph, completed, order[1..], registered)
  }

  /** The completion set only grows, and what it gains is exactly the
      entries the pass configured, none of which was completed beforehand. */
  lemma {:induction false} PassCompletesTriggered(graph: map<string, seq<string>>, completed: set<string>,
                                                  order: seq<string>, registered: set<string>)
    requires forall i :: 0 <= i < |order| ==> order[i] in graph
    ensures var r := Pass(graph, completed, order, registered);
      && completed <= r.completed
      && r.completed == completed + r.triggered
      && completed !! r.triggered
    decreases |order|
  {
    if order != [] {
      var repo := order[0];
      if repo !in completed && AllCompleted(graph[repo], completed) {
        if repo in registered {
          PassCompletesTriggered(graph, completed + {repo}, order[1..], registered);
        }
      } else {
        PassCompletesTriggered(graph, completed, order[1..], registered);
      }
    }
  }

  /** Only entries that are registered and whose dependencies are all
      completed are configured, and each is configured at a visit where,
      in the completion set of that moment (the pass over the entries walked
      before it), it was not yet completed and all its dependencies were. */
  lemma {:induction false} PassTriggersOnlyReady(graph: map<string, seq<string>>, completed: set<string>,
                                                 order: seq<string>, registered: set<string>)
    requires forall i :: 0 <= i < |order| ==> order[i] in graph
    ensures var r := Pass(graph, completed, order, registered);
      forall t :: t in r.triggered ==>
        && t in order && t in registered && AllCompleted(graph[t], r.completed)
        && exists i :: 0 <= i < |order| && order[i] == t
             && t !in Pass(graph, completed, order[..i], registered).completed
             && AllCompleted(graph[t], Pass(graph, completed, order[..i], registered).completed)
    decreases |order|
  {
    if order != [] {
      var repo := order[0];
      var r := Pass(graph, completed, order, registered);
      assert order[..0] == [];
      if repo !in completed && AllCompleted(graph[repo], completed) {
        if repo in registered {
          var next := completed + {repo};
          var rest := Pass(graph, next, order[1..], registered);
          PassTriggersOnlyReady(graph, next, order[1..], registered);
          PassCompletesTriggered(graph, next, order[1..], registered);
          forall t | t in rest.triggered
            ensures exists i :: (0 <= i < |order| && order[i] == t
              && t !in Pass(graph, completed, order[..i], registered).completed
              && AllCompleted(graph[t], Pass(graph, completed, order[..i], registered).completed))
          {
            var j :| 0 <= j < |order[1..]| && order[1..][j] == t
              && t !in Pass(graph, next, order[1..][..j], registered).completed
              && AllCompleted(graph[t], Pass(graph, next, order[1..][..j], registered).completed);
            assert order[..j + 1][1..] == order[1..][..j];
            assert order[j + 1] == t;
          }
        }
      } else {
        var rest := Pass(graph, completed, order[1..], registered);
        PassTriggersOnlyReady(graph, completed, order[1..], registered);
        forall t | t in rest.triggered
          ensures exists i :: (0 <= i < |order| && order[i] == t
            && t !in Pass(graph, completed, order[..i], registered).completed
            && AllCompleted(graph[t], Pass(graph, completed, order[..i], registered).completed))
        {
          var j :| 0 <= j < |order[1..]| && order[1..][j] == t
            && t !in Pass(graph, completed, order[1..][..j], registered).completed
            && AllCompleted(graph[t], Pass(graph, completed, order[1..][..j], registered).completed);
          assert order[..j + 1][1..] == order[1..][..j];
          assert order[j + 1] == t;
        }
      }
    }
  }

  /** Unless it panics, the pass completes every walked entry whose
      dependencies were all completed when it started. */
  lemma {:induction false} PassCompletesReady(graph: map<string, seq<string>>, completed: set<string>,
                                              order: seq<string>, registered: set<string>)
    requires forall i :: 0 <= i < |order| ==> order[i] in graph
    ensures var r := Pass(graph, completed, order, registered);
      !r.panicked ==>
        forall i :: 0 <= i < |order| && AllCompleted(graph[order[i]], completed) ==> order[i] in r.completed
    decreases |order|
  {
    if order != [] {
      var repo := order[0];
      var next := if repo !in completed && AllCompleted(graph[repo], completed) then completed + {repo} else completed;
      PassCompletesReady(graph, next, order[1..], registered);
      PassCompletesTriggered(graph, next, order[1..], registered);
      var r := Pass(graph, completed, order, registered);
      if !r.panicked {
        forall i | 0 <= i < |order| && AllCompleted(graph[order[i]], completed)
          ensures order[i] in r.completed
        {
          if i > 0 {
            assert order[i] == order[1..][i - 1];
            assert AllCompleted(graph[order[1..][i - 1]], next);
          }
        }
      }
    }
  }

  /** A pass panics only at an entry that has qualified (not completed, all
      dependencies completed) but is missing from the registry: the walk
      reached it without an earlier panic, and it qualified in the
      completion set of that moment. */
  lemma {:induction false} PassPanicsOnlyOnUnregistered(graph: map<string, seq<string>>, completed: set<string>,
                                                        order: seq<string>, registered: set<string>)
    requires forall i :: 0 <= i < |order| ==> order[i] in graph
    ensures var r := Pass(graph, completed, order, registered);
      r.panicked ==>
        && (exists i :: 0 <= i < |order| && order[i] !in registered
              && order[i] !in r.completed && AllCompleted(graph[order[i]], r.completed))
        && (exists i :: 0 <= i < |order| && order[i] !in registered
              && !Pass(graph, completed, order[..i], registered).panicked
              && order[i] !in Pass(graph, completed, order[..i], registered).completed
              && AllCompleted(graph[order[i]], Pass(graph, completed, order[..i], registered).completed))
    decreases |order|
  {
    if order != [] {
      var repo := order[0];
      var r := Pass(graph, completed, order, registered);
      assert order[..0] == [];
      var next := if repo !in completed && AllCompleted(graph[repo], completed) then completed + {repo} else completed;
      if repo !in completed && AllCompleted(graph[repo], completed) && repo !in registered {
        assert order[0] !in registered;
      } else {
        PassPanicsOnlyOnUnregistered(graph, next, order[1..], registered);
        if r.panicked {
          var i :| 0 <= i < |order[1..]| && order[1..][i] !in registered
            && order[1..][i] !in r.completed && AllCompleted(graph[order[1..][i]], r.completed);
          assert order[i + 1] == order[1..][i];
          var j :| 0 <= j < |order[1..]| && order[1..][j] !in registered
            && !Pass(graph, next, order[1..][..j], registered).panicked
            && order[1..][j] !in Pass(graph, next, order[1..][..j], registered).completed
            && AllCompleted(graph[order[1..][j]], Pass(graph, next, order[1..][..j], registered).completed);
          assert order[..j + 1][1..] == order[1..][..j];
          assert order[j + 1] == order[1..][j];
        }
      }
    }
  }

  /** Conversely, the pass panics whenever the walk reaches an entry that
      qualifies in the completion set of that moment (the pass over the
      entries walked before it, which must not itself have panicked) but is
      missing from the registry. */
  lemma {:induction false} PassPanicsAtReadyUnregistered(graph: map<string, seq<string>>, completed: set<string>,
                                                         order: seq<string>, registered: set<string>, i: nat)
    requires forall j :: 0 <= j < |order| ==> order[j] in graph
    requires i < |order|
    requires var before := Pass(graph, completed, order[..i], registered);
      && !before.panicked
      && order[i] !in registered
      && order[i] !in before.completed
      && AllCompleted(graph[order[i]], before.completed)
    ensures Pass(graph, completed, order, registered).panicked
    decreases i
  {
    assert order[..0] == [];
    if i > 0 {
      var repo := order[0];
      assert order[..i][1..] == order[1..][..i - 1];
      assert order[1..][i - 1] == order[i];
      if repo !in completed && AllCompleted(graph[repo], completed) {
        if repo in registered {
          PassPanicsAtReadyUnregistered(graph, completed + {repo}, order[1..], registered, i - 1);
        }
      } else {
        PassPanicsAtReadyUnregistered(graph, completed, order[1..], registered, i - 1);
      }
    }
  }

  /** A pass whose walked entries are all registered never panics: this
      is the condition under which line 335 of the source is safe. */
  lemma PassSafeWhenRegistered(graph: map<string, seq<string>>, completed: set<string>,
                               order: seq<string>, registered: set<string>)
    requires forall i :: 0 <= i < |order| ==> order[i] in graph && order[i] in registered
    ensures !Pass(graph, completed, order, registered).panicked
  {
    PassPanicsOnlyOnUnregistered(graph, completed, order, registered);
  }

  /** The pass is a single walk, not a fixpoint: with B depending on A and
      C on B, completing A configures C in the same pass only when the walk
      reaches B before C. */
  lemma SinglePassDependsOnOrder()
    ensures var graph := map["A" := [], "B" := ["A"], "C" := ["B"]];
      var registered := {"A", "B", "C"};
      && Pass(graph, {"A"}, ["A", "B", "C"], registered) == PassResult({"A", "B", "C"}, {"B", "C"}, false)
      && Pass(graph, {"A"}, ["C", "A", "B"], registered) == PassResult({"A", "B"}, {"B"}, false)
  {
  }

  /** What the pass sends to one registered entry: ConfigureDocker then
      ConfigurePipeline if it was configured, nothing otherwise. */
  function ConfigureMessages(configured: bool): seq<Messages.Message>
  {
    if configured then [Messages.ConfigureDocker, Messages.ConfigurePipeline] else []
  }

  /** The inner `allDepsMet` loop with its early exit. */
  method AllDepsMet(deps: seq<string>, completed: set<string>) returns (met: bool)
    ensures met <==> AllCompleted(deps, completed)
  {
    met := true;
    var j := 0;
    while j < |deps|
      invariant 0 <= j <= |deps|
      invariant forall t :: 0 <= t < j ==> deps[t] in completed
    {
      if deps[j] !in completed {
        met := false;
        break;
      }
      j := j + 1;
    }
  }

  class CoordinatorActor {
    /** Dependencies: each key depends on the names it maps to. */
    var graph: map<string, seq<string>>
    /** The names marked completed; Go's map to `true` never holds `false`. */
    var completed: set<string>
    const registry: RegistryActor

    /** NewCoordinatorActor. */
    constructor (registry: RegistryActor)
      ensures graph == map[] && completed == {} && this.registry == registry
    {
      graph := map[];
      completed := {};
      this.registry := registry;
    }

    /** AddDependency: replaces any previous dependency list of `repo`. */
    method AddDependency(repo: string, dependsOn: seq<string>)
      modifies this
      ensures graph == old(graph)[repo := dependsOn]
      ensures completed == old(completed)
    {
      graph := graph[repo := dependsOn];
    }

    /** One iteration of handleCompletion's loop (lines 322-338) for the
        graph entry `repo`: skip it if it is completed; otherwise run the
        inner dependency check and, if every dependency is completed, send the
        two configuration messages to its actor and mark it completed.
        `panicked` reports the nil dereference of an unregistered entry. */
    method Visit(repo: string) returns (configured: bool, panicked: bool)
      requires registry.Valid()
      requires repo in graph
      modifies this`completed, if repo in registry.repos then {registry.repos[repo]} else {}
      ensures registry.Valid()
      ensures var qualifies := repo !in old(completed) && AllCompleted(graph[repo], old(completed));
        && configured == (qualifies && repo in registry.repos)
        && panicked == (qualifies && repo !in registry.repos)
      ensures completed == if configured then old(completed) + {repo} else old(completed)
      ensures repo in registry.repos ==> Appended(registry.repos[repo], ConfigureMessages(configured))
    {
      configured, panicked := false, false;
      if repo !in completed {
        var met := AllDepsMet(graph[repo], completed);
        if met {
          if repo !in registry.repos {
            panicked := true;
            return;
          }
          var actor := registry.repos[repo];
          actor.Send(Messages.ConfigureDocker);
          actor.Send(Messages.ConfigurePipeline);
          completed := completed + {repo};
          configured := true;
        }
      }
    }

    /** The loop of handleCompletion (lines 320-339): walk the graph in
        `order`, visiting each entry once. `ok` is false where the Go code
        would panic on a nil registry entry; the state is then the one reached
        at that point. */
    method Evaluate(order: seq<string>) returns (ok: bool)
      requires registry.Valid()
      requires forall i :: 0 <= i < |order| ==> order[i] in graph
      modifies this`completed, registry.repos.Values
      ensures registry.Valid()
      ensures old(completed) <= completed
      ensures var r := Pass(graph, old(completed), order, registry.repos.Keys);
        && completed == r.completed
        && ok == !r.panicked
        && (forall k :: k in registry.repos ==>
              Appended(registry.repos[k], ConfigureMessages(k in r.triggered)))
    {
      ghost var repos := registry.repos;
      ghost var total := Pass(graph, completed, order, repos.Keys);
      ghost var sent: set<string> := {};
      var todo := order;
      while todo != []
        invariant forall k :: k in todo ==> k in graph
        invariant registry.repos == repos
        invariant registry.Valid()
        invariant old(completed) <= completed
        invariant sent <= completed
        invariant var rest := Pass(graph, completed, todo, repos.Keys);
          total == PassResult(rest.completed, sent + rest.triggered, rest.panicked)
        invariant forall k :: k in repos ==> Appended(repos[k], ConfigureMessages(k in sent))
        decreases |todo|
      {
        var repo := todo[0];
        var configured, panicked := Visit(repo);
        if panicked {
          return false;
        }
        if configured {
          sent := sent + {repo};
        }
        todo := todo[1..];
      }
      ok := true;
    }

    /** handleCompletion for the message RepoCompleted{name}, with the graph
        walked in `order`: mark `name` completed, then run the loop. */
    method HandleCompletion(name: string, order: seq<string>) returns (ok: bool)
      requires registry.Valid()
      requires Enumerates(order, graph.Keys)
      modifies this`completed, registry.repos.Values
      ensures registry.Valid()
      ensures name in completed && old(completed) <= completed
      ensures var r := Pass(graph, old(completed) + {name}, order, registry.repos.Keys);
        && completed == r.completed
        && ok == !r.panicked
        && (forall k :: k in registry.repos ==>
              Appended(registry.repos[k], ConfigureMessages(k in r.triggered)))
      // the entries the pass newly marks are exactly those it configured
      ensures var r := Pass(graph, old(completed) + {name}, order, registry.repos.Keys);
        completed - (old(completed) + {name}) == r.triggered
      // every newly marked entry is registered, so it received both messages
      ensures Pass(graph, old(completed) + {name}, order, registry.repos.Keys).triggered <= registry.repos.Keys
      // unless it panics, every entry ready when the pass began ends completed
      ensures ok ==> forall k :: k in graph && AllCompleted(graph[k], old(completed) + {name}) ==> k in completed
    {
      completed := completed + {name};
      ghost var start := completed;
      ok := Evaluate(order);
      PassCompletesTriggered(graph, start, order, registry.repos.Keys);
      PassCompletesReady(graph, start, order, registry.repos.Keys);
      PassTriggersOnlyReady(graph, start, order, registry.repos.Keys);
      forall k | k in graph && AllCompleted(graph[k], start) && ok
        ensures k in completed
      {
        var i :| 0 <= i < |order| && order[i] == k;
      }
    }
  }
}
