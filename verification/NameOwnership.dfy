/** Which release an object belongs to when names are the only link, and what
    deleting releases removes (internal/service/service_service.go, ownsByName,
    cleanupUserResources, DeleteService). */
module NameOwnership {
  import opened Basics

  /** The object is named after the release, with something behind the dash. */
  predicate Claims(obj: string, release: string) {
    release + "-" < obj
  }

  /** The object is the release's: it claims it, and no longer name of another
      release does, nor is that other release's name. */
  predicate Owns(obj: string, release: string, others: set<string>) {
    && Claims(obj, release)
    && forall other :: other in others && |other| > |release| ==> obj != other && !Claims(obj, other)
  }

  method OwnsByName(obj: string, release: string, others: seq<string>) returns (owns: bool)
    ensures owns <==> Owns(obj, release, set other | other in others)
  {
    var prefix := release + "-";
    if |obj| <= |prefix| || obj[..|prefix|] != prefix {
      return false;
    }
    for i := 0 to |others|
      invariant forall j :: 0 <= j < i && |others[j]| > |release| ==> obj != others[j] && !Claims(obj, others[j])
    {
      var other := others[i];
      if |other| <= |release| {
        continue;
      }
      if obj == other {
        return false;
      }
      var otherPrefix := other + "-";
      if |obj| > |otherPrefix| && obj[..|otherPrefix|] == otherPrefix {
        assert Claims(obj, other);
        return false;
      }
    }
    return true;
  }

  // --- One claimant ---

  lemma ClaimsOfOneLength(obj: string, a: string, b: string)
    requires Claims(obj, a) && Claims(obj, b) && |a| == |b|
    ensures a == b
  {
    assert a == obj[..|a|] && b == obj[..|b|];
  }

  /** No object is the object of two releases. */
  lemma AtMostOneOwner(obj: string, releases: set<string>, a: string, b: string)
    requires a in releases && b in releases
    requires Owns(obj, a, releases - {a}) && Owns(obj, b, releases - {b})
    ensures a == b
  {
    if |a| == |b| {
      ClaimsOfOneLength(obj, a, b);
    }
  }

  /** No release of the set reaches further into the object's name. */
  ghost predicate Longest(obj: string, release: string, releases: set<string>) {
    && release in releases && Claims(obj, release)
    && forall other :: other in releases && Claims(obj, other) ==> |other| <= |release|
  }

  lemma {:induction false} LongestExists(obj: string, releases: set<string>, some: string) returns (longest: string)
    requires some in releases && Claims(obj, some)
    ensures Longest(obj, longest, releases)
    decreases releases
  {
    var rest := releases - {some};
    if other :| other in rest && Claims(obj, other) {
      var best := LongestExists(obj, rest, other);
      longest := if |best| < |some| then some else best;
    } else {
      longest := some;
    }
  }

  /** The owner, if any, is the release whose name reaches furthest. */
  lemma OwnerIsTheLongest(obj: string, releases: set<string>, release: string)
    requires release in releases
    ensures Owns(obj, release, releases - {release}) <==> Longest(obj, release, releases) && obj !in releases
  {
    if Longest(obj, release, releases) && obj !in releases {
      forall other | other in releases - {release} && |other| > |release|
        ensures obj != other && !Claims(obj, other)
      {
      }
    }
    if Owns(obj, release, releases - {release}) {
      assert |obj| > |release|;
    }
  }

  /** An object has an owner exactly when some release claims it and none bears its name. */
  lemma OwnedExactlyWhenClaimed(obj: string, releases: set<string>)
    ensures (exists release :: release in releases && Owns(obj, release, releases - {release}))
            <==> obj !in releases && exists release :: release in releases && Claims(obj, release)
  {
    if release :| release in releases && Owns(obj, release, releases - {release}) {
      OwnerIsTheLongest(obj, releases, release);
    }
    if release :| obj !in releases && release in releases && Claims(obj, release) {
      var longest := LongestExists(obj, releases, release);
      OwnerIsTheLongest(obj, releases, longest);
      assert Owns(obj, longest, releases - {longest});
    }
  }

  // --- Deleting releases ---

  function After(order: seq<string>, k: nat): set<string>
    requires k < |order|
  {
    var later := order[k + 1..];
    set release | release in later
  }

  /** Deleting release k of the order takes the object away, if it is still there. */
  ghost predicate TakenBy(obj: string, order: seq<string>, k: nat)
    requires k < |order|
  {
    Owns(obj, order[k], After(order, k))
  }

  function Kept(objects: set<string>, release: string, survivors: set<string>): set<string> {
    set o | o in objects && !Owns(o, release, survivors)
  }

  /** What remains once the first k releases of the order are deleted. */
  function Remaining(objects: set<string>, order: seq<string>, k: nat): set<string>
    requires k <= |order|
  {
    if k == 0 then objects else Kept(Remaining(objects, order, k - 1), order[k - 1], After(order, k - 1))
  }

  lemma {:induction false} RemainingMeansNotTaken(objects: set<string>, order: seq<string>, k: nat, obj: string)
    requires k <= |order|
    ensures obj in Remaining(objects, order, k)
        <==> obj in objects && forall j :: 0 <= j < k ==> !TakenBy(obj, order, j)
  {
    if k > 0 {
      RemainingMeansNotTaken(objects, order, k - 1, obj);
      assert TakenBy(obj, order, k - 1) == Owns(obj, order[k - 1], After(order, k - 1));
    }
  }

  /** Deletion k of the order as DeleteService leaves it when no call fails: the
      labelled releases that stay are those later in the order. */
  ghost predicate DeletedAt(order: seq<string>, left: seq<set<string>>, k: nat)
    requires k < |order| && |left| == |order| + 1
  {
    left[k + 1] == Kept(left[k], order[k], After(order, k))
  }

  lemma {:induction false} DeletionsLeaveTheRemaining(order: seq<string>, left: seq<set<string>>, k: nat)
    requires |left| == |order| + 1 && forall i :: 0 <= i < |order| ==> DeletedAt(order, left, i)
    requires k <= |order|
    ensures left[k] == Remaining(left[0], order, k)
  {
    if k > 0 {
      DeletionsLeaveTheRemaining(order, left, k - 1);
      assert DeletedAt(order, left, k - 1);
    }
  }

  /** Whatever the order in which all releases go, an object no release is named
      like is removed at the moment the release reaching furthest into its name is
      deleted, and not before. */
  lemma RemovedExactlyWithItsOwner(objects: set<string>, order: seq<string>, m: nat, k: nat, obj: string)
    requires Distinct(order) && m < |order| && k <= |order|
    requires obj in objects && obj !in order
    requires Longest(obj, order[m], set release | release in order)
    ensures obj in Remaining(objects, order, k) <==> k <= m
  {
    RemainingMeansNotTaken(objects, order, k, obj);
    forall j | 0 <= j < |order|
      ensures j < m ==> !TakenBy(obj, order, j)
      ensures j == m ==> TakenBy(obj, order, j)
    {
      assert order[m] in order && order[j] in order;
      assert forall other :: other in After(order, j) ==> other in order;
      if j < m && TakenBy(obj, order, j) {
        assert order[m] == order[j + 1..][m - j - 1];
        assert |order[m]| == |order[j]|;
        ClaimsOfOneLength(obj, order[m], order[j]);
      }
    }
    assert m < k ==> TakenBy(obj, order, m);
  }

  /** An object no release claims outlives them all. */
  lemma UnclaimedObjectsStay(objects: set<string>, order: seq<string>, k: nat, obj: string)
    requires k <= |order| && obj in objects
    requires forall j :: 0 <= j < |order| ==> !Claims(obj, order[j])
    ensures obj in Remaining(objects, order, k)
  {
    RemainingMeansNotTaken(objects, order, k, obj);
  }

  /** An object that bears a release's own name is not that release's: deleting all
      releases removes it exactly when some claimant is deleted later than its
      namesake. */
  lemma NamesakeGoesWithALaterClaimant(objects: set<string>, order: seq<string>, p: nat)
    requires Distinct(order) && p < |order| && order[p] in objects
    ensures order[p] !in Remaining(objects, order, |order|)
            <==> exists j :: p < j < |order| && Claims(order[p], order[j])
  {
    var obj := order[p];
    RemainingMeansNotTaken(objects, order, |order|, obj);
    if obj !in Remaining(objects, order, |order|) {
      var j :| 0 <= j < |order| && TakenBy(obj, order, j);
      if j <= p {
        SparedUntilItsNamesakeGoes(order, p, j);
        assert false;
      }
    }
    if j :| p < j < |order| && Claims(obj, order[j]) {
      var m := SomeLaterClaimantTakes(order, p, j);
    }
  }

  lemma SparedUntilItsNamesakeGoes(order: seq<string>, p: nat, j: nat)
    requires j <= p < |order|
    ensures !TakenBy(order[p], order, j)
  {
    InAfter(order, j, order[p]);
  }

  lemma SomeLaterClaimantTakes(order: seq<string>, p: nat, j: nat) returns (m: nat)
    requires Distinct(order) && p < j < |order| && Claims(order[p], order[j])
    ensures p < m < |order| && TakenBy(order[p], order, m)
  {
    InAfter(order, p, order[j]);
    var longest := LongestExists(order[p], After(order, p), order[j]);
    InAfter(order, p, longest);
    m :| p < m < |order| && order[m] == longest;
    LongestLaterClaimantTakes(order[p], order, p, m);
  }

  /** The volume named after "demo-db" outlives that release and goes with "demo". */
  lemma ANamesakeGoesLater()
    ensures "demo-db" in Remaining({"demo-db"}, ["demo-db", "demo"], 1)
    ensures "demo-db" !in Remaining({"demo-db"}, ["demo-db", "demo"], 2)
  {
    var order := ["demo-db", "demo"];
    assert order[0] == "demo-db" && order[1] == "demo" && |"demo-db"| == 7 && |"demo"| == 4;
    assert "demo-db" == "demo" + "-" + "db";
    assert Claims("demo-db", order[1]);
    NamesakeGoesWithALaterClaimant({"demo-db"}, order, 0);
    assert !Claims("demo-db", order[0]);
    assert !TakenBy("demo-db", order, 0);
    RemainingMeansNotTaken({"demo-db"}, order, 1, "demo-db");
  }

  lemma InAfter(order: seq<string>, k: nat, release: string)
    requires k < |order|
    ensures release in After(order, k) <==> exists j :: k < j < |order| && order[j] == release
  {
    var later := order[k + 1..];
    if j :| k < j < |order| && order[j] == release {
      assert later[j - k - 1] == release;
    }
    if i :| 0 <= i < |later| && later[i] == release {
      assert order[k + 1 + i] == release;
    }
  }

  lemma LongestLaterClaimantTakes(obj: string, order: seq<string>, p: nat, m: nat)
    requires Distinct(order) && p < m < |order| && order[p] == obj
    requires Longest(obj, order[m], After(order, p))
    ensures TakenBy(obj, order, m)
  {
    forall other | other in After(order, m) && |other| > |order[m]|
      ensures obj != other && !Claims(obj, other)
    {
      InAfter(order, m, other);
      InAfter(order, p, other);
    }
  }

  /** A release without the label is the rightful owner: it bears the object's name,
      or of all names it reaches furthest. */
  ghost predicate OwnedUnseen(obj: string, release: string, releases: set<string>, labelled: set<string>) {
    || obj in releases - labelled
    || exists owner :: owner in releases - labelled && Longest(obj, owner, releases + {release})
  }

  /** Releases are listed by a label. A release that goes takes an object it would
      leave if every neighbour were seen exactly when it reaches furthest among those
      seen and the rightful owner is unseen. */
  lemma UnlabelledNeighboursAreNotSpared(obj: string, releases: set<string>, labelled: set<string>, release: string)
    requires release !in releases
    ensures Owns(obj, release, releases * labelled) && !Owns(obj, release, releases)
            <==> && Longest(obj, release, releases * labelled + {release}) && obj !in releases * labelled
                 && OwnedUnseen(obj, release, releases, labelled)
  {
    var seen := releases * labelled;
    assert seen + {release} - {release} == seen && releases + {release} - {release} == releases;
    OwnerIsTheLongest(obj, seen + {release}, release);
    OwnerIsTheLongest(obj, releases + {release}, release);
    if Longest(obj, release, seen + {release}) && obj !in seen {
      var owner := LongestExists(obj, releases + {release}, release);
      if !Owns(obj, release, releases) && obj !in releases {
        assert owner != release;
        assert owner in seen ==> |owner| <= |release|;
        assert owner in releases - labelled;
      }
      if o :| o in releases - labelled && Longest(obj, o, releases + {release}) {
        if Owns(obj, release, releases) {
          assert |o| == |release|;
          ClaimsOfOneLength(obj, o, release);
          assert false;
        }
      }
    }
  }

  /** The home volume of a user of "demo-jupyter-ds" goes with "demo-jupyter" when the
      former carries no label. */
  lemma AnUnlabelledNeighbourLosesItsVolume()
    ensures var volume, left := "demo-jupyter-ds-claim-alice", {"demo-jupyter-ds"};
            && volume !in Kept({volume}, "demo-jupyter", left * {})
            && volume in Kept({volume}, "demo-jupyter", left)
  {
    var volume := "demo-jupyter-ds-claim-alice";
    assert volume == "demo-jupyter" + "-" + "ds-claim-alice" && volume == "demo-jupyter-ds" + "-" + "claim-alice";
    assert Claims(volume, "demo-jupyter") && Claims(volume, "demo-jupyter-ds");
    assert |"demo-jupyter-ds"| > |"demo-jupyter"|;
    assert {"demo-jupyter-ds"} * {} == {};
    assert Owns(volume, "demo-jupyter", {});
  }

  // --- The cleanup itself ---

  /** The releases of a project namespace, those among them that carry the
      project's label, and the objects no controller reclaims. */
  class Namespace {
    var releases: set<string>
    var labelled: set<string>
    var pods: set<string>
    var volumes: set<string>

    constructor (releases: set<string>, labelled: set<string>, pods: set<string>, volumes: set<string>)
      ensures this.releases == releases && this.labelled == labelled && this.pods == pods && this.volumes == volumes
    {
      this.releases, this.labelled, this.pods, this.volumes := releases, labelled, pods, volumes;
    }

    /** The neighbours the server sees: releases are listed by the project's label. */
    ghost function Neighbours(release: string): set<string>
      reads this`releases, this`labelled
    {
      releases * labelled - {release}
    }

    /** Lists the names of a set; None when the API call fails. */
    method List(names: set<string>) returns (r: Option<seq<string>>)
      ensures r.Some? ==> (set name | name in r.value) == names
    {
      if * {
        return None;
      }
      var listed: seq<string> := [];
      var rest := names;
      while rest != {}
        invariant rest <= names
        invariant forall name :: name in listed <==> name in names && name !in rest
        decreases rest
      {
        var name :| name in rest;
        rest := rest - {name};
        listed := listed + [name];
      }
      return Some(listed);
    }

    /** Removes the owned ones among the objects of one kind. A listing or a
        deletion may fail; `ok` says that none did. */
    method CleanupKind(objects: set<string>, release: string, others: seq<string>) returns (left: set<string>, ok: bool)
      ensures left <= objects
      ensures forall o :: o in objects && o !in left ==> Owns(o, release, set other | other in others)
      ensures ok ==> left == Kept(objects, release, set other | other in others)
    {
      left := objects;
      var listed := List(objects);
      if listed.None? {
        return left, false;
      }
      ok := true;
      for i := 0 to |listed.value|
        invariant left <= objects
        invariant forall o :: o in objects && o !in left ==> Owns(o, release, set other | other in others)
        invariant ok ==> forall o :: o in left && Owns(o, release, set other | other in others)
                                     ==> o in listed.value[i..]
      {
        var name := listed.value[i];
        assert forall o :: o in listed.value[i..] ==> o == name || o in listed.value[i + 1..];
        var owns := OwnsByName(name, release, others);
        if !owns {
          continue;
        }
        if * {
          ok := false;
          continue;
        }
        left := left - {name};
      }
    }

    /** Deleting a volume cannot be undone: without the list of the releases still
        there, nothing is removed. */
    method CleanupUserResources(release: string) returns (ok: bool)
      modifies this`pods, this`volumes
      ensures pods <= old(pods) && volumes <= old(volumes)
      ensures forall o :: (o in old(pods) && o !in pods) || (o in old(volumes) && o !in volumes)
                          ==> Owns(o, release, Neighbours(release))
      ensures ok ==> pods == Kept(old(pods), release, Neighbours(release))
      ensures ok ==> volumes == Kept(old(volumes), release, Neighbours(release))
    {
      var survivors := List(releases * labelled);
      if survivors.None? {
        return false;
      }
      var others: seq<string> := [];
      for i := 0 to |survivors.value|
        invariant forall name :: name in others <==> name in survivors.value[..i] && name != release
      {
        assert survivors.value[..i + 1] == survivors.value[..i] + [survivors.value[i]];
        if survivors.value[i] != release {
          others := others + [survivors.value[i]];
        }
      }
      assert survivors.value[..|survivors.value|] == survivors.value;
      assert (set other | other in others) == Neighbours(release) by {
        assert forall name :: name in releases * labelled <==> name in survivors.value;
      }
      var podsOk, volumesOk;
      pods, podsOk := CleanupKind(pods, release, others);
      volumes, volumesOk := CleanupKind(volumes, release, others);
      return podsOk && volumesOk;
    }

    /** The release goes first, so the cleanup lists its neighbours. */
    method DeleteService(project: string, name: string) returns (deleted: bool, ok: bool)
      modifies this
      ensures labelled == old(labelled)
      ensures !deleted ==> releases == old(releases) && pods == old(pods) && volumes == old(volumes)
      ensures deleted ==> releases == old(releases) - {project + "-" + name}
      ensures forall o :: (o in old(pods) && o !in pods) || (o in old(volumes) && o !in volumes)
                          ==> Owns(o, project + "-" + name, releases * labelled)
      ensures deleted && ok ==> pods == Kept(old(pods), project + "-" + name, releases * labelled)
      ensures deleted && ok ==> volumes == Kept(old(volumes), project + "-" + name, releases * labelled)
      ensures deleted && ok ==>
                forall o :: o in old(volumes) ==>
                              (o !in volumes && !Owns(o, project + "-" + name, releases)
                               <==> && Longest(o, project + "-" + name, releases * labelled + {project + "-" + name})
                                    && o !in releases * labelled
                                      && OwnedUnseen(o, project + "-" + name, releases, labelled))
    {
      var release := project + "-" + name;
      if * {
        return false, false;
      }
      if release !in releases {
        return false, false;
      }
      releases := releases - {release};
      assert Neighbours(release) == releases * labelled;
      ok := CleanupUserResources(release);
      deleted := true;
      forall o | o in old(volumes)
        ensures Owns(o, release, releases * labelled) && !Owns(o, release, releases)
                <==> && Longest(o, release, releases * labelled + {release}) && o !in releases * labelled
                     && OwnedUnseen(o, release, releases, labelled)
      {
        UnlabelledNeighboursAreNotSpared(o, releases, labelled, release);
      }
    }
  }
}
