/** The directory actor of registry/actor.go (type RegistryActor, lines
    133-268): the map from repository name to repository actor, and the
    operations that add, remove and address its entries. Each operation is
    one atomic step; the mutex that makes it so is not modelled. The printed
    "added", "already exists" and "not found" lines are returned as a bool. */
module RegistryActors {
  import Messages
  import opened RepoActors

  /** RegistryItem from registry/registry.go without its two timestamps and
      its git handle. */
  datatype RegistryItem = RegistryItem(
    id: string, name: string, itemType: string, status: string,
    path: string, enabled: bool, hasDockerfile: bool)

  /** The listing entry of one repository actor. */
  function ItemOf(a: RepoActor): RegistryItem
    reads a
  {
    RegistryItem(a.name, a.name, "repository", "active", a.path, a.active, a.isDocker)
  }

  /** The ids of `items` are pairwise distinct. */
  predicate DistinctIds(items: seq<RegistryItem>)
  {
    forall i, j :: 0 <= i < j < |items| ==> items[i].id != items[j].id
  }

  class RegistryActor {
    var repos: map<string, RepoActor>

    /** Every entry is stored under its actor's own name (so no actor is
        stored twice) and its mailbox is still open. */
    ghost predicate Valid()
      reads this, repos.Values
    {
      forall k :: k in repos ==> repos[k].name == k && !repos[k].closed
    }

    /** NewRegistryActor. */
    constructor ()
      ensures repos == map[] && Valid()
    {
      repos := map[];
    }

    /** addRepo: a name already present is refused and nothing changes;
        otherwise a fresh actor is registered and then sent InitRepo. */
    method AddRepo(name: string, path: string) returns (added: bool)
      requires Valid()
      modifies this
      ensures Valid()
      ensures added <==> name !in old(repos)
      ensures !added ==> repos == old(repos)
      ensures added ==>
        && name in repos
        && fresh(repos[name])
        && repos == old(repos)[name := repos[name]]
        && repos[name].path == path
        && repos[name].State() == Fresh
        && repos[name].mailbox == [Messages.InitRepo]
        && !repos[name].closed
        && repos[name].effects == []
    {
      if name in repos {
        return false;
      }
      var repo := new RepoActor(name, path);
      repos := repos[name := repo];
      repo.Send(Messages.InitRepo);
      added := true;
    }

    /** removeRepo: a present repository is sent a final ReportCompletion,
        its mailbox is closed and its entry deleted; an absent name changes
        nothing. */
    method RemoveRepo(name: string) returns (removed: bool)
      requires Valid()
      modifies this, repos.Values
      ensures Valid()
      ensures removed <==> name in old(repos)
      ensures repos == old(repos) - {name}
      ensures removed ==>
        var a := old(repos)[name];
        && a.mailbox == old(a.mailbox) + [Messages.ReportCompletion(name)]
        && a.closed
        && a.State() == old(a.State())
        && a.effects == old(a.effects)
      ensures forall k :: k in repos ==> unchanged(repos[k])
    {
      if name in repos {
        var repo := repos[name];
        repo.Send(Messages.ReportCompletion(name));
        repo.Close();
        repos := repos - {name};
        removed := true;
      } else {
        removed := false;
      }
    }

    /** toggleRepo: forwards ToggleRepo to the named repository. */
    method ToggleRepo(name: string) returns (found: bool)
      requires Valid()
      modifies repos.Values
      ensures Valid()
      ensures found <==> name in repos
      ensures found ==> Appended(repos[name], [Messages.ToggleRepo(name)])
      ensures forall k :: k in repos && k != name ==> unchanged(repos[k])
    {
      if name in repos {
        repos[name].Send(Messages.ToggleRepo(name));
        found := true;
      } else {
        found := false;
      }
    }

    /** configureRepo: forwards ConfigureDocker and then ConfigurePipeline to
        the named repository. */
    method ConfigureRepo(name: string) returns (found: bool)
      requires Valid()
      modifies repos.Values
      ensures Valid()
      ensures found <==> name in repos
      ensures found ==> Appended(repos[name], [Messages.ConfigureDocker, Messages.ConfigurePipeline])
      ensures forall k :: k in repos && k != name ==> unchanged(repos[k])
    {
      if name in repos {
        var repo := repos[name];
        repo.Send(Messages.ConfigureDocker);
        repo.Send(Messages.ConfigurePipeline);
        found := true;
      } else {
        found := false;
      }
    }

    /** ListItems: one item per directory entry, copied out of the actor, in
        whatever order the map is walked. */
    method ListItems() returns (items: seq<RegistryItem>)
      requires Valid()
      ensures |items| == |repos|
      ensures DistinctIds(items)
      ensures forall i :: 0 <= i < |items| ==>
        items[i].id in repos && items[i] == ItemOf(repos[items[i].id])
      ensures forall k :: k in repos ==> exists i :: 0 <= i < |items| && items[i].id == k
    {
      items := [];
      var todo := repos.Keys;
      while todo != {}
        invariant todo <= repos.Keys
        invariant |items| + |todo| == |repos|
        invariant DistinctIds(items)
        invariant forall i :: 0 <= i < |items| ==>
          items[i].id in repos.Keys - todo && items[i] == ItemOf(repos[items[i].id])
        invariant forall k :: k in repos.Keys - todo ==>
          exists i :: 0 <= i < |items| && items[i].id == k
        decreases |todo|
      {
        var k :| k in todo;
        ghost var listed := items;
        items := items + [ItemOf(repos[k])];
        forall k' | k' in repos.Keys - (todo - {k})
          ensures exists i :: 0 <= i < |items| && items[i].id == k'
        {
          if k' == k {
            assert items[|items| - 1].id == k';
          } else {
            assert k' in repos.Keys - todo;
            var i :| 0 <= i < |listed| && listed[i].id == k';
            assert items[i].id == k';
          }
        }
        todo := todo - {k};
      }
      assert repos.Keys - todo == repos.Keys;
    }
  }
}
