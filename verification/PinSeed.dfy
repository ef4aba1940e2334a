/** What the seed's list of quick PINs leaves behind: which of the listed users get their PIN. */
module PinSeed {
  import opened Prelude
  import opened Keys
  import opened QuickPins

  function SpecEmail(spec: PinSpec): string {
    spec.email
  }

  predicate DistinctSpecs(specs: seq<PinSpec>) {
    Distinct(Map(SpecEmail, specs))
  }

  /** The user has an account and no PIN, and no other user holds the lookup when the entry's turn
      comes, after these entries before it. */
  predicate GetsPin(users: Users, branch: string, before: seq<PinSpec>, spec: PinSpec)
    decreases |before|, 1
  {
    && spec.email in users && !(users[spec.email].enabled && users[spec.email].pinHash.Some?)
    && forall other :: other in users && other != spec.email ==>
         LookupThen(users, branch, before, other) != Some(Hmac(branch + ":" + spec.pin))
  }

  /** The lookup a user holds after these entries: that of the entry that set it, else the stored one. */
  function LookupThen(users: Users, branch: string, specs: seq<PinSpec>, email: string): Option<Lookup>
    requires email in users
    decreases |specs|, 0
  {
    if specs == [] then users[email].lookup
    else
      var init, last := specs[..|specs| - 1], specs[|specs| - 1];
      if last.email == email && GetsPin(users, branch, init, last) then Some(Hmac(branch + ":" + last.pin))
      else LookupThen(users, branch, init, email)
  }

  lemma LookupSpelled(branch: string, pin: string)
    ensures LookupOf(branch, pin) == Hmac(branch + ":" + pin)
  {
  }

  lemma DistinctInit(specs: seq<PinSpec>, n: nat)
    requires DistinctSpecs(specs) && n <= |specs|
    ensures DistinctSpecs(specs[..n])
  {
    assert Map(SpecEmail, specs[..n]) == Map(SpecEmail, specs)[..n];
  }

  lemma LastIsNew(specs: seq<PinSpec>)
    requires DistinctSpecs(specs) && specs != []
    ensures forall i :: 0 <= i < |specs| - 1 ==> specs[i].email != specs[|specs| - 1].email
  {
    var emails := Map(SpecEmail, specs);
    forall i | 0 <= i < |specs| - 1 ensures specs[i].email != specs[|specs| - 1].email {
      assert emails[i] != emails[|specs| - 1];
    }
  }

  lemma {:induction false} UsersStay(users: Users, branch: string, specs: seq<PinSpec>)
    ensures SeedAll(users, branch, specs).Keys == users.Keys
  {
    if specs != [] {
      UsersStay(users, branch, specs[..|specs| - 1]);
    }
  }

  /** A user's row before its own entry is the stored one. */
  lemma UntouchedYet(users: Users, branch: string, specs: seq<PinSpec>)
    requires DistinctSpecs(specs) && specs != [] && specs[|specs| - 1].email in users
    ensures var email := specs[|specs| - 1].email;
            var before := SeedAll(users, branch, specs[..|specs| - 1]);
            email in before && before[email] == users[email]
  {
    LastIsNew(specs);
    SeedNeverReplacesPins(users, branch, specs[..|specs| - 1], specs[|specs| - 1].email);
  }

  /** The seed's step on the last entry sets the PIN exactly when the entry gets it. */
  lemma LastStep(users: Users, branch: string, specs: seq<PinSpec>)
    requires DistinctSpecs(specs) && specs != []
    requires forall email :: email in users ==>
               && email in SeedAll(users, branch, specs[..|specs| - 1])
               && SeedAll(users, branch, specs[..|specs| - 1])[email].lookup
                    == LookupThen(users, branch, specs[..|specs| - 1], email)
    ensures var init, last := specs[..|specs| - 1], specs[|specs| - 1];
            var before := SeedAll(users, branch, init);
            SeedAll(users, branch, specs) ==
              if GetsPin(users, branch, init, last)
              then before[last.email := User(true, Some(Bcrypt(last.pin)), Some(Hmac(branch + ":" + last.pin)))]
              else before
  {
    var init, last := specs[..|specs| - 1], specs[|specs| - 1];
    UsersStay(users, branch, init);
    LookupSpelled(branch, last.pin);
    if last.email in users {
      UntouchedYet(users, branch, specs);
    }
  }

  lemma {:induction false} LookupsThen(users: Users, branch: string, specs: seq<PinSpec>)
    requires DistinctSpecs(specs)
    ensures forall email :: email in users ==>
              && email in SeedAll(users, branch, specs)
              && SeedAll(users, branch, specs)[email].lookup == LookupThen(users, branch, specs, email)
  {
    UsersStay(users, branch, specs);
    if specs != [] {
      DistinctInit(specs, |specs| - 1);
      LookupsThen(users, branch, specs[..|specs| - 1]);
      LastStep(users, branch, specs);
    }
  }

  /** What the seed does for each listed user, for any table: the user ends with the listed PIN,
      enabled and found by its lookup, exactly when there is an account without a PIN and no other
      user holds the lookup at the entry's turn; otherwise the row stays as it was. */
  lemma {:induction false} SeededIff(users: Users, branch: string, specs: seq<PinSpec>, i: nat)
    requires DistinctSpecs(specs) && i < |specs| && specs[i].email in users
    ensures var spec, after := specs[i], SeedAll(users, branch, specs);
            && spec.email in after
            && after[spec.email] ==
                 if GetsPin(users, branch, specs[..i], spec)
                 then User(true, Some(Bcrypt(spec.pin)), Some(Hmac(branch + ":" + spec.pin)))
                 else users[spec.email]
  {
    var n := |specs| - 1;
    DistinctInit(specs, n);
    LookupsThen(users, branch, specs[..n]);
    LastStep(users, branch, specs);
    if i < n {
      LastIsNew(specs);
      SeededIff(users, branch, specs[..n], i);
      assert specs[..n][..i] == specs[..i];
    } else {
      UntouchedYet(users, branch, specs);
    }
  }

  // ---------- Where every stored lookup belongs to a PIN ----------

  /** A user with a lookup has a PIN, so that the seed leaves every stored lookup alone. */
  predicate LookupsHavePins(users: Users) {
    forall email :: email in users && users[email].lookup.Some? ==>
      users[email].enabled && users[email].pinHash.Some?
  }

  predicate AwaitsPin(users: Users, spec: PinSpec) {
    spec.email in users && !(users[spec.email].enabled && users[spec.email].pinHash.Some?)
  }

  /** Someone holds this lookup in the table, or one of these entries asks for it. */
  predicate Claimed(users: Users, branch: string, before: seq<PinSpec>, lookup: Lookup) {
    || (exists other :: other in users && users[other].lookup == Some(lookup))
    || (exists j :: 0 <= j < |before| && AwaitsPin(users, before[j]) && Hmac(branch + ":" + before[j].pin) == lookup)
  }

  lemma ClaimedSnoc(users: Users, branch: string, before: seq<PinSpec>, last: PinSpec, lookup: Lookup)
    ensures Claimed(users, branch, before + [last], lookup) <==>
              || Claimed(users, branch, before, lookup)
              || (AwaitsPin(users, last) && Hmac(branch + ":" + last.pin) == lookup)
  {
    var all := before + [last];
    assert all[|before|] == last && forall j :: 0 <= j < |before| ==> all[j] == before[j];
    if j :| 0 <= j < |before| && AwaitsPin(users, before[j]) && Hmac(branch + ":" + before[j].pin) == lookup {
      assert AwaitsPin(users, all[j]) && Hmac(branch + ":" + all[j].pin) == lookup;
    }
  }

  lemma NobodyThen(users: Users, branch: string, specs: seq<PinSpec>, email: string)
    requires email in users && forall i :: 0 <= i < |specs| ==> specs[i].email != email
    ensures LookupThen(users, branch, specs, email) == users[email].lookup
  {
  }

  /** A lookup is held by someone at an entry's turn exactly when it was claimed before. */
  lemma {:induction false} HeldIffClaimed(users: Users, branch: string, specs: seq<PinSpec>, lookup: Lookup)
    requires DistinctSpecs(specs) && LookupsHavePins(users)
    ensures (exists email :: email in users && LookupThen(users, branch, specs, email) == Some(lookup)) <==>
              Claimed(users, branch, specs, lookup)
    ensures forall email :: email in users && users[email].lookup.Some? ==>
              LookupThen(users, branch, specs, email) == users[email].lookup
  {
    if specs != [] {
      var n := |specs| - 1;
      var init, last := specs[..n], specs[n];
      DistinctInit(specs, n);
      LastIsNew(specs);
      assert specs == init + [last];
      HeldIffClaimed(users, branch, init, lookup);
      ClaimedSnoc(users, branch, init, last, lookup);
      if AwaitsPin(users, last) {
        NobodyThen(users, branch, init, last.email);
      }
    }
  }

  /** On such a table it is first come, first served: a listed user without a PIN gets the listed one
      exactly when no stored user holds its lookup and no earlier entry with the same PIN is for an
      account without one, whether or not that entry got it. */
  lemma {:induction false} FirstComeFirstServed(users: Users, branch: string, specs: seq<PinSpec>, i: nat)
    requires DistinctSpecs(specs) && LookupsHavePins(users) && i < |specs| && AwaitsPin(users, specs[i])
    ensures var spec, after := specs[i], SeedAll(users, branch, specs);
            && spec.email in after
            && after[spec.email] ==
                 if Claimed(users, branch, specs[..i], Hmac(branch + ":" + spec.pin)) then users[spec.email]
                 else User(true, Some(Bcrypt(spec.pin)), Some(Hmac(branch + ":" + spec.pin)))
  {
    var spec, before := specs[i], specs[..i];
    SeededIff(users, branch, specs, i);
    DistinctInit(specs, i);
    HeldIffClaimed(users, branch, before, Hmac(branch + ":" + spec.pin));
    var emails := Map(SpecEmail, specs);
    forall j | 0 <= j < i ensures before[j].email != spec.email {
      assert emails[j] != emails[i];
    }
    NobodyThen(users, branch, before, spec.email);
  }
}
