/**
 * Grafana teams, and the org filter that turns a user's teams (across all
 * organizations) into the label values enforced for one organization.
 */
module Teams {
  import opened GoStrconv

  /** A team as the Grafana API returns it: `id`, `orgId` and `name`. */
  datatype Team = Team(id: int64, orgId: int64, name: string)

  /** The names of the teams that belong to `orgId`, in the order the teams are listed. */
  function TeamNames(teams: seq<Team>, orgId: int64): seq<string>
  {
    if teams == [] then []
    else (if teams[0].orgId == orgId then [teams[0].name] else []) + TeamNames(teams[1..], orgId)
  }

  /** One step of the filter: the first team contributes its name if it is in `orgId`. */
  lemma TeamNamesCons(t: Team, rest: seq<Team>, orgId: int64)
    ensures TeamNames([t] + rest, orgId) == (if t.orgId == orgId then [t.name] else []) + TeamNames(rest, orgId)
  {
    assert ([t] + rest)[1..] == rest;
  }

  /** Filtering a concatenation filters each part and keeps them in order. */
  lemma {:induction false} TeamNamesAppend(a: seq<Team>, b: seq<Team>, orgId: int64)
    ensures TeamNames(a + b, orgId) == TeamNames(a, orgId) + TeamNames(b, orgId)
  {
    if a == [] {
      assert a + b == b;
    } else {
      assert (a + b)[0] == a[0] && (a + b)[1..] == a[1..] + b;
      TeamNamesAppend(a[1..], b, orgId);
    }
  }

  /** `idx` lists positions of `teams`, strictly increasing, whose names are `names`. */
  ghost predicate NamesAt(names: seq<string>, teams: seq<Team>, idx: seq<nat>)
  {
    && |idx| == |names|
    && (forall j :: 0 <= j < |idx| ==> idx[j] < |teams| && teams[idx[j]].name == names[j])
    && (forall j, k :: 0 <= j < k < |idx| ==> idx[j] < idx[k])
  }

  /** `idx` holds exactly the positions of the teams of `orgId`. */
  ghost predicate PositionsOf(teams: seq<Team>, orgId: int64, idx: seq<nat>)
  {
    forall i :: 0 <= i < |teams| ==> (teams[i].orgId == orgId <==> i in idx)
  }

  /**
   * The filtered names are exactly the names of the teams of `orgId`, in
   * fetch order: there are increasing positions, which are precisely the
   * positions of the teams of `orgId`, whose names are the result.
   */
  lemma {:induction false} TeamNamesSelect(teams: seq<Team>, orgId: int64) returns (idx: seq<nat>)
    ensures NamesAt(TeamNames(teams, orgId), teams, idx)
    ensures PositionsOf(teams, orgId, idx)
  {
    if teams == [] {
      return [];
    }
    var tail := TeamNamesSelect(teams[1..], orgId);
    idx := SelectStep(teams, orgId, tail);
  }

  /** The inductive step of `TeamNamesSelect`: account for the first team. */
  lemma SelectStep(teams: seq<Team>, orgId: int64, tail: seq<nat>) returns (idx: seq<nat>)
    requires teams != []
    requires NamesAt(TeamNames(teams[1..], orgId), teams[1..], tail)
    requires PositionsOf(teams[1..], orgId, tail)
    ensures NamesAt(TeamNames(teams, orgId), teams, idx)
    ensures PositionsOf(teams, orgId, idx)
  {
    var t, rest := teams[0], teams[1..];
    assert teams == [t] + rest;
    var restNames := TeamNames(rest, orgId);
    TeamNamesCons(t, rest, orgId);
    NamesAtShift(restNames, rest, tail, t);
    if t.orgId == orgId {
      idx := [0] + Shifted(tail);
      NamesAtCons(restNames, rest, Shifted(tail), t);
    } else {
      idx := Shifted(tail);
    }
    PositionsStep(teams, orgId, tail, idx);
  }

  /** The positions of the teams of `orgId` after one more team is put in front. */
  lemma PositionsStep(teams: seq<Team>, orgId: int64, tail: seq<nat>, idx: seq<nat>)
    requires teams != []
    requires PositionsOf(teams[1..], orgId, tail)
    requires idx == (if teams[0].orgId == orgId then [0] else []) + Shifted(tail)
    ensures PositionsOf(teams, orgId, idx)
  {
    forall i | 0 <= i < |teams|
      ensures teams[i].orgId == orgId <==> i in idx
    {
      if i == 0 {
        assert 0 !in Shifted(tail);
      } else {
        assert teams[i] == teams[1..][i - 1];
        ShiftedIn(tail, i - 1);
      }
    }
  }

  /** Moving every position right by one accounts for one more team in front. */
  lemma NamesAtShift(names: seq<string>, rest: seq<Team>, idx: seq<nat>, t: Team)
    requires NamesAt(names, rest, idx)
    ensures NamesAt(names, [t] + rest, Shifted(idx))
  {
    var teams := [t] + rest;
    forall j | 0 <= j < |idx|
      ensures Shifted(idx)[j] < |teams| && teams[Shifted(idx)[j]].name == names[j]
    {
      assert teams[idx[j] + 1] == rest[idx[j]];
    }
  }

  /** A matching team in front puts its name first, at position 0. */
  lemma NamesAtCons(names: seq<string>, rest: seq<Team>, idx: seq<nat>, t: Team)
    requires NamesAt(names, [t] + rest, idx)
    requires forall j :: 0 <= j < |idx| ==> idx[j] > 0
    ensures NamesAt([t.name] + names, [t] + rest, [0] + idx)
  {
  }

  /** A position is in the shifted list exactly when its predecessor is in the original. */
  lemma ShiftedIn(idx: seq<nat>, i: nat)
    ensures i + 1 in Shifted(idx) <==> i in idx
  {
    var s := Shifted(idx);
    if i in idx {
      var j :| 0 <= j < |idx| && idx[j] == i;
      assert s[j] == i + 1;
    }
    if i + 1 in s {
      var j :| 0 <= j < |s| && s[j] == i + 1;
      assert idx[j] == i;
    }
  }

  /** Every position of `idx` moved one place to the right. */
  function Shifted(idx: seq<nat>): (r: seq<nat>)
    ensures |r| == |idx|
    ensures forall j :: 0 <= j < |idx| ==> r[j] == idx[j] + 1
  {
    if idx == [] then [] else [idx[0] + 1] + Shifted(idx[1..])
  }

  /** No names are left exactly when no team belongs to `orgId`. */
  lemma {:induction false} TeamNamesEmpty(teams: seq<Team>, orgId: int64)
    ensures TeamNames(teams, orgId) == [] <==> forall i :: 0 <= i < |teams| ==> teams[i].orgId != orgId
  {
    if teams != [] {
      TeamNamesEmpty(teams[1..], orgId);
      assert forall i :: 1 <= i < |teams| ==> teams[i] == teams[1..][i - 1];
    }
  }

  /**
   * The filter loop of `ExtractLabel`: append the name of every team whose
   * org is `orgId`, walking the fetched list in order.
   */
  method FilterTeamNames(teams: seq<Team>, orgId: int64) returns (names: seq<string>)
    ensures names == TeamNames(teams, orgId)
  {
    names := [];
    for i := 0 to |teams|
      invariant names == TeamNames(teams[..i], orgId)
    {
      var t := teams[i];
      assert teams[..i + 1] == teams[..i] + [t];
      TeamNamesAppend(teams[..i], [t], orgId);
      if t.orgId == orgId {
        names := names + [t.name];
      }
    }
    assert teams[..|teams|] == teams;
  }
}
