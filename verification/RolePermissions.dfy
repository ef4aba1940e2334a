/** The seed's two passes over role permissions: grant what the matrix lists, then revoke what
    the revoke table lists. */
module RolePermissions {
  import opened Prelude

  /** A row of the role-permission table: role id and permission id. */
  type Grant = (string, string)

  /** A role's name and the actions listed for it, in the matrix or in the revoke table. */
  datatype Listing = Listing(role: string, actions: seq<string>)

  /** The role and permission tables: unique names to ids. */
  datatype Catalog = Catalog(roles: map<string, string>, permissions: map<string, string>)

  predicate Resolves(c: Catalog, role: string, action: string) {
    role in c.roles && action in c.permissions
  }

  function GrantOf(c: Catalog, role: string, action: string): Grant
    requires Resolves(c, role, action)
  {
    (c.roles[role], c.permissions[action])
  }

  /** The grants that a listing resolves to; unknown roles and actions are skipped. */
  ghost predicate Listed(c: Catalog, listings: seq<Listing>, g: Grant) {
    exists i, j :: 0 <= i < |listings| && 0 <= j < |listings[i].actions|
      && Names(c, listings[i].role, listings[i].actions[j], g)
  }

  /** Role and action are both known, and the grant is the pair of their ids. */
  predicate Names(c: Catalog, role: string, action: string, g: Grant) {
    role in c.roles && action in c.permissions && g == (c.roles[role], c.permissions[action])
  }

  /** The same as a set, in the order the loops meet them. */
  function ActionGrants(c: Catalog, role: string, actions: seq<string>): set<Grant> {
    if actions == [] then {}
    else
      var action := actions[|actions| - 1];
      ActionGrants(c, role, actions[..|actions| - 1])
      + if Resolves(c, role, action) then {GrantOf(c, role, action)} else {}
  }

  function Grants(c: Catalog, listings: seq<Listing>): set<Grant> {
    if listings == [] then {}
    else
      var last := listings[|listings| - 1];
      Grants(c, listings[..|listings| - 1]) + ActionGrants(c, last.role, last.actions)
  }

  lemma {:induction false} ActionGrantsAreListed(c: Catalog, role: string, actions: seq<string>, g: Grant)
    ensures g in ActionGrants(c, role, actions) <==> exists j :: 0 <= j < |actions| && Names(c, role, actions[j], g)
  {
    if actions != [] {
      var n := |actions| - 1;
      ActionGrantsAreListed(c, role, actions[..n], g);
      assert forall j :: 0 <= j < n ==> actions[..n][j] == actions[j];
    }
  }

  lemma {:induction false} GrantsAreListed(c: Catalog, listings: seq<Listing>, g: Grant)
    ensures g in Grants(c, listings) <==> Listed(c, listings, g)
  {
    if listings != [] {
      var n := |listings| - 1;
      GrantsAreListed(c, listings[..n], g);
      ActionGrantsAreListed(c, listings[n].role, listings[n].actions, g);
      assert forall i :: 0 <= i < n ==> listings[..n][i] == listings[i];
    }
  }

  function AsSet(rows: seq<Grant>): set<Grant> {
    set g | g in rows
  }

  /** The actions listed for a role that resolve to a grant that is already there. */
  function AlreadyHeld(c: Catalog, held: set<Grant>, role: string, actions: seq<string>): nat {
    CountWhere((action: string) => role in c.roles && action in c.permissions
                                   && (c.roles[role], c.permissions[action]) in held, actions)
  }

  /** One role of the matrix: the grants not there yet, once per mention, and a count of the rest. */
  method CollectMissing(c: Catalog, existing: set<Grant>, listing: Listing) returns (missing: seq<Grant>, skipped: nat)
    ensures AsSet(missing) == ActionGrants(c, listing.role, listing.actions) - existing
    ensures skipped == AlreadyHeld(c, existing, listing.role, listing.actions)
  {
    missing, skipped := [], 0;
    var role, actions := listing.role, listing.actions;
    if role !in c.roles {
      NoRoleNoGrants(c, existing, role, actions);
      return;
    }
    for j := 0 to |actions|
      invariant AsSet(missing) == ActionGrants(c, role, actions[..j]) - existing
      invariant skipped == AlreadyHeld(c, existing, role, actions[..j])
    {
      assert actions[..j + 1][..j] == actions[..j];
      if actions[j] !in c.permissions {
        continue;
      }
      var g := GrantOf(c, role, actions[j]);
      if g in existing {
        skipped := skipped + 1;
      } else {
        AsSetSnoc(missing, g);
        missing := missing + [g];
      }
    }
    assert actions[..|actions|] == actions;
  }

  /** The role-permission table. */
  class GrantStore {
    var grants: set<Grant>

    constructor (grants: set<Grant>)
      ensures this.grants == grants
    {
      this.grants := grants;
    }

    /** The grant pass: collect what is missing, then one insert that ignores duplicates. An
        action listed twice is inserted once. */
    method SeedRolePermissions(c: Catalog, matrix: seq<Listing>) returns (created: nat, skipped: nat)
      modifies this
      ensures grants == old(grants) + Grants(c, matrix)
      ensures created == |grants| - |old(grants)|
      ensures skipped == SumOver((l: Listing) =>
                CountWhere((action: string) => l.role in c.roles && action in c.permissions
                                               && (c.roles[l.role], c.permissions[action]) in old(grants), l.actions),
                matrix)
    {
      created, skipped := 0, 0;
      var existing := grants;
      var toCreate: seq<Grant> := [];
      for i := 0 to |matrix|
        invariant AsSet(toCreate) == Grants(c, matrix[..i]) - existing
        invariant skipped == SumOver((l: Listing) =>
                    CountWhere((action: string) => l.role in c.roles && action in c.permissions
                                                   && (c.roles[l.role], c.permissions[action]) in existing, l.actions),
                    matrix[..i])
        invariant grants == existing
      {
        assert matrix[..i + 1][..i] == matrix[..i];
        var missing, held := CollectMissing(c, existing, matrix[i]);
        AsSetConcat(toCreate, missing);
        MissingOfBoth(Grants(c, matrix[..i]), ActionGrants(c, matrix[i].role, matrix[i].actions), existing);
        toCreate := toCreate + missing;
        skipped := skipped + held;
      }
      assert matrix[..|matrix|] == matrix;
      AddMissing(existing, AsSet(toCreate), Grants(c, matrix));
      if |toCreate| > 0 {
        grants := existing + AsSet(toCreate);
        created := |grants| - |existing|;
      } else {
        assert AsSet(toCreate) == {};
      }
    }

    /** The revoke pass: per entry, delete the role's rows for the actions listed. */
    method RevokeStaleRolePermissions(c: Catalog, table: seq<Listing>) returns (revoked: nat)
      modifies this
      ensures grants == old(grants) - Grants(c, table)
      ensures revoked == |old(grants)| - |grants|
    {
      revoked := 0;
      ghost var start := grants;
      for i := 0 to |table|
        invariant grants == start - Grants(c, table[..i])
        invariant revoked == |start| - |grants|
      {
        assert table[..i + 1][..i] == table[..i];
        var entry := table[i];
        if entry.role !in c.roles {
          NoRoleNoGrants(c, grants, entry.role, entry.actions);
          continue;
        }
        var listed := ActionGrants(c, entry.role, entry.actions);
        var stale := grants * listed;
        DeleteStale(start, Grants(c, table[..i]), listed);
        revoked := revoked + |stale|;
        grants := grants - stale;
      }
      assert table[..|table|] == table;
    }

    /** The two passes in the order the seed runs them. */
    method SeedPermissions(c: Catalog, matrix: seq<Listing>, table: seq<Listing>) returns (created: nat, revoked: nat)
      modifies this
      ensures grants == Converged(c, old(grants), matrix, table)
      ensures created == |Grants(c, matrix) - old(grants)|
      ensures revoked == |(old(grants) + Grants(c, matrix)) * Grants(c, table)|
      ensures |grants| == |old(grants)| + created - revoked
    {
      ghost var start := grants;
      var skipped;
      created, skipped := SeedRolePermissions(c, matrix);
      SizeOfDifference(grants, start);
      assert grants - start == Grants(c, matrix) - start;
      ghost var granted := grants;
      revoked := RevokeStaleRolePermissions(c, table);
      SizeOfDifference(granted, granted * Grants(c, table));
      assert granted - granted * Grants(c, table) == grants;
    }
  }

  lemma {:induction false} NoRoleNoGrants(c: Catalog, held: set<Grant>, role: string, actions: seq<string>)
    requires role !in c.roles
    ensures ActionGrants(c, role, actions) == {} && AlreadyHeld(c, held, role, actions) == 0
  {
    if actions != [] {
      NoRoleNoGrants(c, held, role, actions[..|actions| - 1]);
    }
  }

  lemma AsSetSnoc(rows: seq<Grant>, g: Grant)
    ensures AsSet(rows + [g]) == AsSet(rows) + {g}
  {
  }

  lemma AsSetConcat(a: seq<Grant>, b: seq<Grant>)
    ensures AsSet(a + b) == AsSet(a) + AsSet(b)
  {
  }

  lemma MissingOfBoth(a: set<Grant>, b: set<Grant>, held: set<Grant>)
    ensures (a - held) + (b - held) == (a + b) - held
  {
  }

  lemma AddMissing(held: set<Grant>, missing: set<Grant>, wanted: set<Grant>)
    requires missing == wanted - held
    ensures held + missing == held + wanted && |held + missing| == |held| + |missing|
    ensures missing == {} ==> held == held + wanted
  {
    assert held + missing == held + wanted;
  }

  lemma SizeOfDifference(a: set<Grant>, b: set<Grant>)
    requires b <= a
    ensures |a - b| == |a| - |b|
  {
    assert a == (a - b) + b;
  }

  lemma DeleteStale(start: set<Grant>, gone: set<Grant>, listed: set<Grant>)
    ensures var left := start - gone;
            && left - left * listed == start - (gone + listed)
            && |left - left * listed| == |left| - |left * listed|
  {
    var left := start - gone;
    SizeOfDifference(left, left * listed);
    assert left - left * listed == start - (gone + listed);
  }

  // ---------- Convergence ----------

  /** The table after both passes. */
  function Converged(c: Catalog, grants: set<Grant>, matrix: seq<Listing>, table: seq<Listing>): set<Grant> {
    (grants + Grants(c, matrix)) - Grants(c, table)
  }

  /** What a role holds after the seed: a resolvable matrix grant or one it had before, and in
      no case one of the revoke table, even one that was added back by hand. */
  lemma {:induction false} HeldAfterSeedIff(
    c: Catalog, grants: set<Grant>, matrix: seq<Listing>, table: seq<Listing>, g: Grant)
    ensures g in Converged(c, grants, matrix, table) <==>
              (g in grants || Listed(c, matrix, g)) && !Listed(c, table, g)
  {
    GrantsAreListed(c, matrix, g);
    GrantsAreListed(c, table, g);
  }

  /** The table after any number of runs; before each run someone may add and remove rows. */
  function AfterSeeds(c: Catalog, grants: set<Grant>, edits: seq<(set<Grant>, set<Grant>)>,
                      matrix: seq<Listing>, table: seq<Listing>): set<Grant>
  {
    if edits == [] then grants
    else
      var before := AfterSeeds(c, grants, edits[..|edits| - 1], matrix, table);
      var (added, removed) := edits[|edits| - 1];
      Converged(c, (before + added) - removed, matrix, table)
  }

  /** Would the grant be there if only the hand edits had happened? */
  predicate SurvivesEdits(grants: set<Grant>, edits: seq<(set<Grant>, set<Grant>)>, g: Grant) {
    if edits == [] then g in grants
    else
      var (added, removed) := edits[|edits| - 1];
      (SurvivesEdits(grants, edits[..|edits| - 1], g) || g in added) && g !in removed
  }

  /** Convergence over any history of runs and hand edits: after the last run the table holds
      exactly the grants that are not in the revoke table and are either in the matrix or
      survive the hand edits. Neither the number of runs nor the edits before them matter to
      the grants that the two lists decide. */
  lemma {:induction false} SeedConverges(c: Catalog, grants: set<Grant>, edits: seq<(set<Grant>, set<Grant>)>,
                                         matrix: seq<Listing>, table: seq<Listing>, g: Grant)
    requires edits != []
    ensures g in AfterSeeds(c, grants, edits, matrix, table) <==>
              !Listed(c, table, g) && (Listed(c, matrix, g) || SurvivesEdits(grants, edits, g))
  {
    var init := edits[..|edits| - 1];
    var (added, removed) := edits[|edits| - 1];
    var before := AfterSeeds(c, grants, init, matrix, table);
    HeldAfterSeedIff(c, (before + added) - removed, matrix, table, g);
    if init != [] {
      SeedConverges(c, grants, init, matrix, table, g);
    }
  }

  /** A second run finds the table as it left it. It creates and revokes again exactly the
      grants that both lists name, so both of its counters are zero exactly when no grant is
      listed in both. */
  lemma {:induction false} SecondRunCounters(c: Catalog, grants: set<Grant>, matrix: seq<Listing>, table: seq<Listing>)
    ensures var once := Converged(c, grants, matrix, table);
            var created := |Grants(c, matrix) - once|;
            var revoked := |(once + Grants(c, matrix)) * Grants(c, table)|;
            && Converged(c, once, matrix, table) == once
            && created == revoked
            && (created == 0 <==> forall g :: !(Listed(c, matrix, g) && Listed(c, table, g)))
  {
    var m, r := Grants(c, matrix), Grants(c, table);
    SecondPass(grants, m, r);
    forall g ensures g in m * r <==> Listed(c, matrix, g) && Listed(c, table, g) {
      GrantsAreListed(c, matrix, g);
      GrantsAreListed(c, table, g);
    }
    DisjointIffNothingShared(m, r);
  }

  lemma SecondPass(grants: set<Grant>, m: set<Grant>, r: set<Grant>)
    ensures var once := (grants + m) - r;
            (once + m) - r == once && m - once == m * r && (once + m) * r == m * r
  {
  }

  lemma DisjointIffNothingShared(a: set<Grant>, b: set<Grant>)
    ensures |a * b| == 0 <==> forall g :: g !in a * b
  {
    if |a * b| != 0 {
      var g :| g in a * b;
    }
  }
}
