/** The seed's branch memberships, and the upkeep of each user's default branch. */
module Memberships {
  import opened Prelude

  /** A stored membership; its key is the user and the branch. */
  datatype Membership = Membership(org: string, role: string, isDefault: bool)

  type Key = (string, string)
  type Rows = map<Key, Membership>

  datatype MembershipSeed = MembershipSeed(
    email: string, roleName: string, branchCodes: seq<string>, defaultBranch: string)

  /** Unique names to ids: users by email, roles by name, the organization's branches by code. */
  datatype Directory = Directory(users: map<string, string>, roles: map<string, string>, branches: map<string, string>)

  /** Different branch codes are different branches. */
  predicate BranchesInjective(d: Directory) {
    forall a, b :: a in d.branches && b in d.branches && d.branches[a] == d.branches[b] ==> a == b
  }

  function ClearDefaults(rows: Rows, user: string, org: string): Rows {
    map k | k in rows :: if k.0 == user && rows[k].org == org then rows[k].(isDefault := false) else rows[k]
  }

  /** One membership: left alone if it exists; a new default first clears the earlier ones. */
  function AddOne(rows: Rows, org: string, user: string, role: string, branch: string, isDefault: bool): Rows {
    if (user, branch) in rows then rows
    else
      var cleared := if isDefault then ClearDefaults(rows, user, org) else rows;
      cleared[(user, branch) := Membership(org, role, isDefault)]
  }

  function AddCodes(
    d: Directory, rows: Rows, org: string, user: string, role: string, ms: MembershipSeed, codes: seq<string>): Rows {
    if codes == [] then rows
    else
      var before, code := AddCodes(d, rows, org, user, role, ms, codes[..|codes| - 1]), codes[|codes| - 1];
      if code !in d.branches then before
      else AddOne(before, org, user, role, d.branches[code], code == ms.defaultBranch)
  }

  predicate Resolves(d: Directory, ms: MembershipSeed) {
    ms.email in d.users && ms.roleName in d.roles
  }

  function AddEntry(d: Directory, rows: Rows, org: string, ms: MembershipSeed): Rows {
    if !Resolves(d, ms) then rows
    else AddCodes(d, rows, org, d.users[ms.email], d.roles[ms.roleName], ms, ms.branchCodes)
  }

  function AddAll(d: Directory, rows: Rows, org: string, seeds: seq<MembershipSeed>): Rows {
    if seeds == [] then rows else AddEntry(d, AddAll(d, rows, org, seeds[..|seeds| - 1]), org, seeds[|seeds| - 1])
  }

  /** The invariant: per user and organization, at most one default. */
  predicate AtMostOneDefault(rows: Rows) {
    forall a, b :: a in rows && b in rows && Rivals(a, rows[a], b, rows[b]) ==> a == b
  }

  /** Two defaults of one user in one organization. */
  predicate Rivals(a: Key, m: Membership, b: Key, n: Membership) {
    a.0 == b.0 && m.org == n.org && m.isDefault && n.isDefault
  }

  lemma AddOneKeepsInvariant(rows: Rows, org: string, user: string, role: string, branch: string, isDefault: bool)
    requires AtMostOneDefault(rows)
    ensures AtMostOneDefault(AddOne(rows, org, user, role, branch, isDefault))
  {
  }

  /** The memberships table. */
  class MembershipStore {
    var rows: Rows

    constructor (rows: Rows)
      ensures this.rows == rows
    {
      this.rows := rows;
    }

    /** One membership: look it up, clear earlier defaults if need be, create it. */
    method AddMembership(org: string, user: string, role: string, branch: string, isDefault: bool) returns (added: bool)
      requires AtMostOneDefault(rows)
      modifies this
      ensures rows == AddOne(old(rows), org, user, role, branch, isDefault)
      ensures AtMostOneDefault(rows)
      ensures added <==> (user, branch) !in old(rows)
      ensures |rows| == |old(rows)| + if added then 1 else 0
    {
      if (user, branch) in rows {
        return false;
      }
      AddOneKeepsInvariant(rows, org, user, role, branch, isDefault);
      if isDefault {
        ClearingKeepsSize(rows, user, org);
        rows := ClearDefaults(rows, user, org);
      }
      NewKeyGrows(rows, (user, branch), Membership(org, role, isDefault));
      rows := rows[(user, branch) := Membership(org, role, isDefault)];
      return true;
    }

    /** All branches of one seed entry. The invariant holds after every single write. */
    method SeedEntry(d: Directory, org: string, ms: MembershipSeed) returns (created: nat, skipped: nat)
      requires AtMostOneDefault(rows)
      modifies this
      ensures rows == AddEntry(d, old(rows), org, ms)
      ensures AtMostOneDefault(rows)
      ensures created == |rows| - |old(rows)| && created + skipped == (
                if ms.email in d.users && ms.roleName in d.roles
                then CountWhere((code: string) => code in d.branches, ms.branchCodes) else 0)
    {
      created, skipped := 0, 0;
      if ms.email !in d.users || ms.roleName !in d.roles {
        return;
      }
      var user, role := d.users[ms.email], d.roles[ms.roleName];
      ghost var start := rows;
      var codes := ms.branchCodes;
      for i := 0 to |codes|
        invariant rows == AddCodes(d, start, org, user, role, ms, codes[..i])
        invariant AtMostOneDefault(rows)
        invariant created == |rows| - |start|
        invariant created + skipped == CountWhere((code: string) => code in d.branches, codes[..i])
      {
        assert codes[..i + 1][..i] == codes[..i];
        if codes[i] in d.branches {
          var added := AddMembership(org, user, role, d.branches[codes[i]], codes[i] == ms.defaultBranch);
          created, skipped := created + (if added then 1 else 0), skipped + (if added then 0 else 1);
        }
      }
      assert codes[..|codes|] == codes;
    }

    method SeedMemberships(d: Directory, org: string, seeds: seq<MembershipSeed>) returns (created: nat, skipped: nat)
      requires AtMostOneDefault(rows)
      modifies this
      ensures rows == AddAll(d, old(rows), org, seeds)
      ensures AtMostOneDefault(rows)
      ensures created == |rows| - |old(rows)|
      ensures created + skipped == SumOver((ms: MembershipSeed) =>
                if ms.email in d.users && ms.roleName in d.roles
                then CountWhere((code: string) => code in d.branches, ms.branchCodes) else 0, seeds)
    {
      created, skipped := 0, 0;
      ghost var start := rows;
      for i := 0 to |seeds|
        invariant rows == AddAll(d, start, org, seeds[..i])
        invariant AtMostOneDefault(rows)
        invariant created == |rows| - |start|
        invariant created + skipped == SumOver((ms: MembershipSeed) =>
                    if ms.email in d.users && ms.roleName in d.roles
                    then CountWhere((code: string) => code in d.branches, ms.branchCodes) else 0, seeds[..i])
      {
        assert seeds[..i + 1][..i] == seeds[..i];
        var c, s := SeedEntry(d, org, seeds[i]);
        created, skipped := created + c, skipped + s;
      }
      assert seeds[..|seeds|] == seeds;
    }
  }

  lemma ClearingKeepsSize(rows: Rows, user: string, org: string)
    ensures ClearDefaults(rows, user, org).Keys == rows.Keys
    ensures |ClearDefaults(rows, user, org)| == |rows|
  {
    var cleared := ClearDefaults(rows, user, org);
    assert cleared.Keys == rows.Keys;
    assert |cleared| == |cleared.Keys| && |rows| == |rows.Keys|;
  }

  lemma NewKeyGrows(rows: Rows, key: Key, m: Membership)
    requires key !in rows
    ensures |rows[key := m]| == |rows| + 1
  {
    var grown := rows[key := m];
    assert grown.Keys == rows.Keys + {key};
    assert |grown| == |grown.Keys| && |rows| == |rows.Keys|;
  }

  // ---------- Which branch ends up the default ----------

  predicate IsDefaultAt(rows: Rows, user: string, org: string, branch: string) {
    (user, branch) in rows && rows[(user, branch)].org == org && rows[(user, branch)].isDefault
  }

  lemma DefaultAfterOne(
    rows: Rows, org: string, user: string, role: string, branch: string, isDefault: bool,
    user': string, org': string, branch': string)
    ensures IsDefaultAt(AddOne(rows, org, user, role, branch, isDefault), user', org', branch') <==>
              if (user, branch) !in rows && isDefault && user' == user && org' == org then branch' == branch
              else IsDefaultAt(rows, user', org', branch')
  {
  }

  /** The entry makes its default branch the default: it is listed, exists, and the user has no
      membership there yet. */
  predicate SetsDefault(d: Directory, rows: Rows, user: string, ms: MembershipSeed, codes: seq<string>) {
    && ms.defaultBranch in codes && ms.defaultBranch in d.branches
    && (user, d.branches[ms.defaultBranch]) !in rows
  }

  /** Which memberships exist after an entry, and what they say: old ones keep organization and
      role, new ones have those of the entry. */
  lemma {:induction false} RowsAfterCodes(
    d: Directory, rows: Rows, org: string, user: string, role: string, ms: MembershipSeed, codes: seq<string>, key: Key)
    ensures var after := AddCodes(d, rows, org, user, role, ms, codes);
            && (key in after <==>
                  || key in rows
                  || exists i :: 0 <= i < |codes| && codes[i] in d.branches && key == (user, d.branches[codes[i]]))
            && (key in after ==>
                  && after[key].org == (if key in rows then rows[key].org else org)
                  && after[key].role == (if key in rows then rows[key].role else role))
  {
    if codes != [] {
      var n := |codes| - 1;
      RowsAfterCodes(d, rows, org, user, role, ms, codes[..n], key);
      assert forall i :: 0 <= i < n ==> codes[..n][i] == codes[i];
    }
  }

  /** The default of any user in any organization after one entry: the entry's default branch,
      alone, exactly when the entry sets it; otherwise whatever it was before. An existing
      membership at the default branch is never promoted. */
  lemma {:induction false} DefaultAfterCodes(
    d: Directory, rows: Rows, org: string, user: string, role: string, ms: MembershipSeed, codes: seq<string>,
    user': string, org': string, branch': string)
    requires BranchesInjective(d)
    ensures IsDefaultAt(AddCodes(d, rows, org, user, role, ms, codes), user', org', branch') <==>
              if user' == user && org' == org && SetsDefault(d, rows, user, ms, codes)
              then branch' == d.branches[ms.defaultBranch]
              else IsDefaultAt(rows, user', org', branch')
  {
    if codes != [] {
      var n := |codes| - 1;
      var init, code := codes[..n], codes[n];
      var before := AddCodes(d, rows, org, user, role, ms, init);
      DefaultAfterCodes(d, rows, org, user, role, ms, init, user', org', branch');
      assert codes == init + [code];
      if code in d.branches {
        var branch := d.branches[code];
        DefaultAfterOne(before, org, user, role, branch, code == ms.defaultBranch, user', org', branch');
        RowsAfterCodes(d, rows, org, user, role, ms, init, (user, branch));
        if code == ms.defaultBranch && code in init {
          var i :| 0 <= i < n && init[i] == code;
          assert (user, branch) in before;
        }
      }
    }
  }

  // ---------- The whole seeding loop ----------

  /** The entry lists a resolvable membership with this key. */
  predicate Covers(d: Directory, ms: MembershipSeed, key: Key) {
    && ms.email in d.users && ms.roleName in d.roles && key.0 == d.users[ms.email]
    && exists i :: 0 <= i < |ms.branchCodes| && ms.branchCodes[i] in d.branches
                   && key.1 == d.branches[ms.branchCodes[i]]
  }

  predicate AnyCovers(d: Directory, seeds: seq<MembershipSeed>, key: Key) {
    exists j :: 0 <= j < |seeds| && Covers(d, seeds[j], key)
  }

  lemma AnyCoversSnoc(d: Directory, seeds: seq<MembershipSeed>, key: Key)
    requires seeds != []
    ensures var n := |seeds| - 1;
            AnyCovers(d, seeds, key) <==> AnyCovers(d, seeds[..n], key) || Covers(d, seeds[n], key)
  {
    var n := |seeds| - 1;
    if j :| 0 <= j < n && Covers(d, seeds[..n][j], key) {
      assert Covers(d, seeds[j], key);
    }
    if j :| 0 <= j < |seeds| && Covers(d, seeds[j], key) {
      assert j < n ==> Covers(d, seeds[..n][j], key);
    }
  }

  /** What a membership says after the loop: an old one keeps its organization and role, a new one
      has the organization and the role of the first entry that lists it. */
  predicate SaysAsListed(d: Directory, before: Rows, org: string, seeds: seq<MembershipSeed>, key: Key, m: Membership) {
    if key in before then m.org == before[key].org && m.role == before[key].role
    else
      && m.org == org
      && exists j :: 0 <= j < |seeds| && Covers(d, seeds[j], key) && !AnyCovers(d, seeds[..j], key)
                     && m.role == d.roles[seeds[j].roleName]
  }

  lemma RowsAfterEntry(d: Directory, rows: Rows, org: string, ms: MembershipSeed, key: Key)
    ensures var after := AddEntry(d, rows, org, ms);
            && (key in after <==> key in rows || Covers(d, ms, key))
            && (key in after ==>
                  if key in rows then after[key].org == rows[key].org && after[key].role == rows[key].role
                  else after[key].org == org && after[key].role == d.roles[ms.roleName])
  {
    if Resolves(d, ms) {
      RowsAfterCodes(d, rows, org, d.users[ms.email], d.roles[ms.roleName], ms, ms.branchCodes, key);
    }
  }

  lemma SaysAsListedStill(
    d: Directory, before: Rows, org: string, seeds: seq<MembershipSeed>, key: Key, m: Membership, m': Membership)
    requires seeds != [] && SaysAsListed(d, before, org, seeds[..|seeds| - 1], key, m)
    requires m'.org == m.org && m'.role == m.role
    ensures SaysAsListed(d, before, org, seeds, key, m')
  {
    var init := seeds[..|seeds| - 1];
    if key !in before {
      var j :| 0 <= j < |init| && Covers(d, init[j], key) && !AnyCovers(d, init[..j], key)
               && m.role == d.roles[init[j].roleName];
      assert seeds[..j] == init[..j] && seeds[j] == init[j];
    }
  }

  /** After the whole loop exactly the old memberships and the listed ones exist, and each says what
      it said, or what the first entry that lists it says. */
  lemma {:induction false} RowsAfterAll(d: Directory, rows: Rows, org: string, seeds: seq<MembershipSeed>, key: Key)
    ensures key in AddAll(d, rows, org, seeds) <==> key in rows || AnyCovers(d, seeds, key)
    ensures key in AddAll(d, rows, org, seeds) ==>
              SaysAsListed(d, rows, org, seeds, key, AddAll(d, rows, org, seeds)[key])
  {
    if seeds != [] {
      var n := |seeds| - 1;
      var before, after := AddAll(d, rows, org, seeds[..n]), AddAll(d, rows, org, seeds);
      RowsAfterAll(d, rows, org, seeds[..n], key);
      RowsAfterEntry(d, before, org, seeds[n], key);
      AnyCoversSnoc(d, seeds, key);
      if key in before {
        SaysAsListedStill(d, rows, org, seeds, key, before[key], after[key]);
      } else if key in after {
        assert Covers(d, seeds[n], key) && !AnyCovers(d, seeds[..n], key);
      }
    }
  }

  /** The entry at n moves the user's default: it lists its default branch, the branch exists, and
      the membership there is neither stored nor listed by an earlier entry. */
  predicate Promotes(d: Directory, rows: Rows, seeds: seq<MembershipSeed>, n: nat, user: string)
    requires n < |seeds|
  {
    var ms := seeds[n];
    && ms.email in d.users && ms.roleName in d.roles && d.users[ms.email] == user
    && ms.defaultBranch in ms.branchCodes && ms.defaultBranch in d.branches
    && (user, d.branches[ms.defaultBranch]) !in rows
    && !AnyCovers(d, seeds[..n], (user, d.branches[ms.defaultBranch]))
  }

  /** The branch of the last entry that moves the user's default, if any does. */
  function LastPromotion(d: Directory, rows: Rows, seeds: seq<MembershipSeed>, user: string): Option<string> {
    if seeds == [] then None
    else if Promotes(d, rows, seeds, |seeds| - 1, user) then Some(d.branches[seeds[|seeds| - 1].defaultBranch])
    else LastPromotion(d, rows, seeds[..|seeds| - 1], user)
  }

  /** The default of any user in any organization after the whole loop, read off the list and the
      table it started from: the last branch the list moves it to, alone; else what it was. */
  lemma {:induction false} DefaultAfterAll(
    d: Directory, rows: Rows, org: string, seeds: seq<MembershipSeed>, user: string, org': string, branch: string)
    requires BranchesInjective(d)
    ensures IsDefaultAt(AddAll(d, rows, org, seeds), user, org', branch) <==>
              var moved := LastPromotion(d, rows, seeds, user);
              if org' == org && moved.Some? then branch == moved.value else IsDefaultAt(rows, user, org', branch)
  {
    if seeds != [] {
      var n := |seeds| - 1;
      var ms, before := seeds[n], AddAll(d, rows, org, seeds[..n]);
      DefaultAfterAll(d, rows, org, seeds[..n], user, org', branch);
      if Resolves(d, ms) {
        var owner := d.users[ms.email];
        DefaultAfterCodes(d, before, org, owner, d.roles[ms.roleName], ms, ms.branchCodes, user, org', branch);
        if ms.defaultBranch in d.branches {
          RowsAfterAll(d, rows, org, seeds[..n], (owner, d.branches[ms.defaultBranch]));
        }
      }
    }
  }

  /** A fresh user named by one entry, whose listed default branch exists, ends the whole seeding
      with exactly that branch as default, wherever the entry stands in the list. */
  lemma {:induction false} FreshUserGetsListedDefault(
    d: Directory, rows: Rows, org: string, seeds: seq<MembershipSeed>, i: nat, branch: string)
    requires BranchesInjective(d) && i < |seeds| && Resolves(d, seeds[i])
    requires seeds[i].defaultBranch in seeds[i].branchCodes && seeds[i].defaultBranch in d.branches
    requires forall k :: k in rows ==> k.0 != d.users[seeds[i].email]
    requires forall j :: 0 <= j < |seeds| && j != i && Resolves(d, seeds[j]) ==>
               d.users[seeds[j].email] != d.users[seeds[i].email]
    ensures IsDefaultAt(AddAll(d, rows, org, seeds), d.users[seeds[i].email], org, branch) <==>
              branch == d.branches[seeds[i].defaultBranch]
  {
    OnlyEntryPromotes(d, rows, seeds, i);
    DefaultAfterAll(d, rows, org, seeds, d.users[seeds[i].email], org, branch);
  }

  lemma {:induction false} OnlyEntryPromotes(d: Directory, rows: Rows, seeds: seq<MembershipSeed>, i: nat)
    requires i < |seeds| && Resolves(d, seeds[i])
    requires seeds[i].defaultBranch in seeds[i].branchCodes && seeds[i].defaultBranch in d.branches
    requires forall k :: k in rows ==> k.0 != d.users[seeds[i].email]
    requires forall j :: 0 <= j < |seeds| && j != i && Resolves(d, seeds[j]) ==>
               d.users[seeds[j].email] != d.users[seeds[i].email]
    ensures LastPromotion(d, rows, seeds, d.users[seeds[i].email]) == Some(d.branches[seeds[i].defaultBranch])
  {
    var n := |seeds| - 1;
    if i < n {
      OnlyEntryPromotes(d, rows, seeds[..n], i);
    }
  }

  /** A second run finds every membership and changes nothing, defaults included. */
  lemma {:induction false} SeedIsIdempotent(
    d: Directory, rows: Rows, org: string, seeds: seq<MembershipSeed>, again: seq<MembershipSeed>)
    requires forall i :: 0 <= i < |again| ==> again[i] in seeds
    ensures AddAll(d, AddAll(d, rows, org, seeds), org, again) == AddAll(d, rows, org, seeds)
  {
    if again != [] {
      var n := |again| - 1;
      var done := AddAll(d, rows, org, seeds);
      SeedIsIdempotent(d, rows, org, seeds, again[..n]);
      EntryIsPresent(d, rows, org, seeds, again[n]);
      if Resolves(d, again[n]) {
        NothingToAdd(d, done, org, d.users[again[n].email], d.roles[again[n].roleName], again[n], again[n].branchCodes);
      }
    }
  }

  /** Every resolvable membership of the entry is in the table. */
  predicate EntryCovered(d: Directory, rows: Rows, ms: MembershipSeed) {
    Resolves(d, ms) ==>
      forall i :: 0 <= i < |ms.branchCodes| && ms.branchCodes[i] in d.branches ==>
        (d.users[ms.email], d.branches[ms.branchCodes[i]]) in rows
  }

  lemma EntryIsPresent(d: Directory, rows: Rows, org: string, seeds: seq<MembershipSeed>, ms: MembershipSeed)
    requires ms in seeds
    ensures EntryCovered(d, AddAll(d, rows, org, seeds), ms)
  {
    var j :| 0 <= j < |seeds| && seeds[j] == ms;
    if Resolves(d, ms) {
      forall i | 0 <= i < |ms.branchCodes| && ms.branchCodes[i] in d.branches
        ensures (d.users[ms.email], d.branches[ms.branchCodes[i]]) in AddAll(d, rows, org, seeds)
      {
        var key := (d.users[ms.email], d.branches[ms.branchCodes[i]]);
        assert Covers(d, seeds[j], key);
        RowsAfterAll(d, rows, org, seeds, key);
      }
    }
  }

  lemma {:induction false} NothingToAdd(
    d: Directory, rows: Rows, org: string, user: string, role: string, ms: MembershipSeed, codes: seq<string>)
    requires forall i :: 0 <= i < |codes| && codes[i] in d.branches ==> (user, d.branches[codes[i]]) in rows
    ensures AddCodes(d, rows, org, user, role, ms, codes) == rows
  {
    if codes != [] {
      var n := |codes| - 1;
      assert forall i :: 0 <= i < n ==> codes[..n][i] == codes[i];
      NothingToAdd(d, rows, org, user, role, ms, codes[..n]);
    }
  }
}
