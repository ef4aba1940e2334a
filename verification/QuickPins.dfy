/** Quick PINs: the lookup hash that finds a user from a branch and a PIN, as the seed and the
    importer maintain it. */
module QuickPins {
  import opened Prelude
  import opened Keys

  /** The keyed hash of a text; hashing is taken to be injective. */
  datatype Lookup = Hmac(text: string)

  /** The salted hash of a PIN, which verifies that PIN and no other. */
  datatype PinHash = Bcrypt(pin: string)

  datatype User = User(enabled: bool, pinHash: Option<PinHash>, lookup: Option<Lookup>)

  /** Users under their unique email. */
  type Users = map<string, User>

  datatype PinSpec = PinSpec(email: string, pin: string)

  function LookupOf(branch: string, pin: string): Lookup {
    Hmac(branch + [COLON] + pin)
  }

  predicate HoldsLookup(users: Users, email: string, lookup: Lookup) {
    email in users && users[email].lookup == Some(lookup)
  }

  /** Another user already holds the lookup. */
  predicate Collides(users: Users, email: string, lookup: Lookup) {
    exists other :: other in users && other != email && users[other].lookup == Some(lookup)
  }

  function SetPin(users: Users, email: string, branch: string, pin: string): Users
    requires email in users
  {
    users[email := User(true, Some(Bcrypt(pin)), Some(LookupOf(branch, pin)))]
  }

  predicate HasPin(u: User) {
    u.enabled && u.pinHash.Some?
  }

  /** The seed's step: users without an account, with a PIN, or in collision are passed over. */
  function SeedOne(users: Users, branch: string, spec: PinSpec): Users {
    if spec.email !in users || HasPin(users[spec.email])
       || Collides(users, spec.email, LookupOf(branch, spec.pin))
    then users
    else SetPin(users, spec.email, branch, spec.pin)
  }

  datatype PinError = LookupCollision(email: string)

  /** The importer's step: a collision is an error; an existing PIN is replaced. */
  function ImportOne(users: Users, branch: string, spec: PinSpec): Result<Users, PinError> {
    if spec.email !in users then Ok(users)
    else if Collides(users, spec.email, LookupOf(branch, spec.pin)) then Err(LookupCollision(spec.email))
    else Ok(SetPin(users, spec.email, branch, spec.pin))
  }

  function SeedAll(users: Users, branch: string, specs: seq<PinSpec>): Users {
    if specs == [] then users
    else SeedOne(SeedAll(users, branch, specs[..|specs| - 1]), branch, specs[|specs| - 1])
  }

  function PinHolders(users: Users): set<string> {
    set email | email in users && users[email].enabled && users[email].pinHash.Some?
  }

  lemma SetPinAddsHolder(users: Users, email: string, branch: string, pin: string)
    requires email in users && !HasPin(users[email])
    ensures |PinHolders(SetPin(users, email, branch, pin))| == |PinHolders(users)| + 1
  {
    assert PinHolders(SetPin(users, email, branch, pin)) == PinHolders(users) + {email};
  }

  // ---------- The store ----------

  /** No two users hold the same lookup: the unique index. */
  predicate UniqueLookups(users: Users) {
    forall a, b :: a in users && b in users && users[a].lookup.Some? && users[a].lookup == users[b].lookup ==> a == b
  }

  /** A user's lookup and PIN hash are those of one and the same branch and PIN. */
  ghost predicate Coherent(u: User) {
    u.lookup.Some? ==>
      exists branch, pin :: COLON !in pin && u.lookup == Some(LookupOf(branch, pin)) && u.pinHash == Some(Bcrypt(pin))
  }

  ghost predicate Valid(users: Users) {
    UniqueLookups(users) && forall email :: email in users ==> Coherent(users[email])
  }

  lemma SetPinKeepsValid(users: Users, email: string, branch: string, pin: string)
    requires Valid(users) && email in users && COLON !in pin
    requires !Collides(users, email, LookupOf(branch, pin))
    ensures Valid(SetPin(users, email, branch, pin))
  {
    var after := SetPin(users, email, branch, pin);
    assert Coherent(after[email]);
  }

  class PinStore {
    var users: Users

    constructor (users: Users)
      ensures this.users == users
    {
      this.users := users;
    }

    /** The user that the unique index holds for a lookup. */
    method FindByLookup(lookup: Lookup) returns (found: Option<string>)
      ensures found.Some? ==> HoldsLookup(users, found.value, lookup)
      ensures found.None? ==> forall email :: email in users ==> users[email].lookup != Some(lookup)
    {
      if email :| email in users && users[email].lookup == Some(lookup) {
        return Some(email);
      }
      return None;
    }

    /** The seed: never fails. Created counts the users who hold a PIN only now, and together with
        skipped the entries whose user has an account. */
    method SeedQuickPins(branch: string, specs: seq<PinSpec>) returns (created: nat, skipped: nat)
      requires Valid(users) && forall i :: 0 <= i < |specs| ==> COLON !in specs[i].pin
      modifies this
      ensures users == SeedAll(old(users), branch, specs)
      ensures Valid(users) && users.Keys == old(users.Keys)
      ensures created == |PinHolders(users)| - |PinHolders(old(users))|
      ensures created + skipped == CountWhere((spec: PinSpec) => spec.email in old(users.Keys), specs)
    {
      created, skipped := 0, 0;
      ghost var start := users;
      for i := 0 to |specs|
        invariant users == SeedAll(start, branch, specs[..i])
        invariant Valid(users) && users.Keys == start.Keys
        invariant created == |PinHolders(users)| - |PinHolders(start)|
        invariant created + skipped == CountWhere((spec: PinSpec) => spec.email in start.Keys, specs[..i])
      {
        assert specs[..i + 1][..i] == specs[..i];
        var spec := specs[i];
        if spec.email !in users {
          continue;
        }
        if HasPin(users[spec.email]) {
          skipped := skipped + 1;
          continue;
        }
        var lookup := LookupOf(branch, spec.pin);
        var collision := FindByLookup(lookup);
        if collision.Some? && collision.value != spec.email {
          assert Collides(users, spec.email, lookup);
          skipped := skipped + 1;
          continue;
        }
        NoCollision(users, spec.email, lookup, collision);
        SetPinKeepsValid(users, spec.email, branch, spec.pin);
        SetPinAddsHolder(users, spec.email, branch, spec.pin);
        users := SetPin(users, spec.email, branch, spec.pin);
        created := created + 1;
      }
      assert specs[..|specs|] == specs;
    }

    /** The importer's step for one user at the user's own branch. */
    method SetKnownDemoQuickPin(branch: string, spec: PinSpec) returns (error: Option<PinError>)
      requires Valid(users) && spec.email in users && COLON !in spec.pin
      modifies this
      ensures match ImportOne(old(users), branch, spec)
              case Ok(after) => error == None && users == after
              case Err(e) => error == Some(e) && users == old(users)
      ensures Valid(users) && users.Keys == old(users.Keys)
    {
      var lookup := LookupOf(branch, spec.pin);
      var collision := FindByLookup(lookup);
      if collision.Some? && collision.value != spec.email {
        assert Collides(users, spec.email, lookup);
        return Some(LookupCollision(spec.email));
      }
      NoCollision(users, spec.email, lookup, collision);
      SetPinKeepsValid(users, spec.email, branch, spec.pin);
      users := SetPin(users, spec.email, branch, spec.pin);
      return None;
    }

    /** The importer's loop over users bound to a branch. A collision stops it; exactly the PINs
        set before it stay set. */
    method ImportQuickPins(bindings: seq<(string, PinSpec)>) returns (error: Option<PinError>)
      requires Valid(users) && forall i :: 0 <= i < |bindings| ==> COLON !in bindings[i].1.pin
      modifies this
      ensures match ImportAll(old(users), bindings)
              case Ok(after) => error == None && users == after
              case Err(e) => error == Some(e) && StoppedAt(old(users), bindings, users, e)
      ensures Valid(users) && users.Keys == old(users.Keys)
    {
      ghost var start := users;
      for i := 0 to |bindings|
        invariant ImportAll(start, bindings[..i]) == Ok(users)
        invariant Valid(users) && users.Keys == start.Keys
      {
        assert bindings[..i + 1][..i] == bindings[..i];
        var (branch, spec) := bindings[i];
        if spec.email in users {
          error := SetKnownDemoQuickPin(branch, spec);
          if error.Some? {
            assert ImportOne(users, branch, spec) == Err(error.value);
            ImportFailsForGood(start, bindings, i + 1);
            return;
          }
        }
      }
      assert bindings[..|bindings|] == bindings;
      error := None;
    }
  }

  /** The table is what the bindings before some failing one made of it. */
  ghost predicate StoppedAt(start: Users, bindings: seq<(string, PinSpec)>, users: Users, error: PinError) {
    exists n :: 0 <= n < |bindings| && ImportAll(start, bindings[..n]) == Ok(users)
                && ImportOne(users, bindings[n].0, bindings[n].1) == Err(error)
  }

  lemma {:induction false} ImportFailsForGood(users: Users, bindings: seq<(string, PinSpec)>, n: nat)
    requires n <= |bindings| && ImportAll(users, bindings[..n]).Err?
    ensures ImportAll(users, bindings) == ImportAll(users, bindings[..n])
    decreases |bindings| - n
  {
    if n < |bindings| {
      assert bindings[..n + 1][..n] == bindings[..n];
      ImportFailsForGood(users, bindings, n + 1);
    } else {
      assert bindings[..n] == bindings;
    }
  }

  /** With a unique index, one row found is all there is to a collision. */
  lemma NoCollision(users: Users, email: string, lookup: Lookup, found: Option<string>)
    requires UniqueLookups(users)
    requires found.Some? ==> HoldsLookup(users, found.value, lookup)
    requires found.None? ==> forall e :: e in users ==> users[e].lookup != Some(lookup)
    requires found.None? || found.value == email
    ensures !Collides(users, email, lookup)
  {
  }

  /** The seed never replaces a PIN, and touches only the users it lists. */
  lemma {:induction false} SeedNeverReplacesPins(users: Users, branch: string, specs: seq<PinSpec>, email: string)
    requires email in users
    requires HasPin(users[email]) || forall i :: 0 <= i < |specs| ==> specs[i].email != email
    ensures email in SeedAll(users, branch, specs) && SeedAll(users, branch, specs)[email] == users[email]
  {
    if specs != [] {
      var n := |specs| - 1;
      assert forall i :: 0 <= i < n ==> specs[..n][i] == specs[i];
      SeedNeverReplacesPins(users, branch, specs[..n], email);
    }
  }

  // ---------- Any run of both ----------

  datatype PinStep = SeedStep(branch: string, spec: PinSpec) | ImportStep(branch: string, spec: PinSpec)

  predicate PinsClean(steps: seq<PinStep>) {
    forall i :: 0 <= i < |steps| ==> COLON !in steps[i].spec.pin
  }

  function Perform(users: Users, step: PinStep): Result<Users, PinError> {
    match step
    case SeedStep(branch, spec) => Ok(SeedOne(users, branch, spec))
    case ImportStep(branch, spec) => ImportOne(users, branch, spec)
  }

  /** A run stops at the first failing import and leaves what was written so far. */
  function AfterSteps(users: Users, steps: seq<PinStep>): (Users, bool) {
    if steps == [] then (users, true)
    else
      var (before, going) := AfterSteps(users, steps[..|steps| - 1]);
      if !going then (before, false)
      else
        match Perform(before, steps[|steps| - 1])
        case Ok(after) => (after, true)
        case Err(_) => (before, false)
  }

  /** Safety over every run of seed and import steps in any order, failed ones included. */
  lemma {:induction false} EveryRunKeepsIndex(users: Users, steps: seq<PinStep>)
    requires Valid(users) && PinsClean(steps)
    ensures Valid(AfterSteps(users, steps).0)
  {
    if steps != [] {
      var n := |steps| - 1;
      EveryRunKeepsIndex(users, steps[..n]);
      var (before, going) := AfterSteps(users, steps[..n]);
      var step := steps[n];
      if going && step.spec.email in before
         && !Collides(before, step.spec.email, LookupOf(step.branch, step.spec.pin)) {
        SetPinKeepsValid(before, step.spec.email, step.branch, step.spec.pin);
      }
    }
  }

  /** Texts that end alike after their last colon were joined from the same parts. */
  lemma {:induction false} LookupInjective(branch: string, pin: string, branch': string, pin': string)
    requires COLON !in pin && COLON !in pin'
    requires LookupOf(branch, pin) == LookupOf(branch', pin')
    ensures branch == branch' && pin == pin'
  {
    var s := branch + [COLON] + pin;
    assert s == branch' + [COLON] + pin';
    assert forall k :: |branch| < k < |s| ==> s[k] == pin[k - |branch| - 1];
    assert forall k :: |branch'| < k < |s| ==> s[k] == pin'[k - |branch'| - 1];
    assert s[|branch|] == COLON && s[|branch'|] == COLON;
    assert |branch| == |branch'|;
    assert branch == s[..|branch|] && branch' == s[..|branch'|];
    assert pin == s[|branch| + 1..] && pin' == s[|branch'| + 1..];
  }

  /** The user's PIN at a branch, read off the stored hashes. */
  ghost predicate SignsInAt(u: User, branch: string, pin: string) {
    u.pinHash == Some(Bcrypt(pin)) && exists pin' :: COLON !in pin' && u.lookup == Some(LookupOf(branch, pin'))
  }

  /** Looking up the hash agrees with trying the PIN on every user bound to the branch, and at
      most one user ever has a given PIN at a given branch. */
  lemma {:induction false} LookupAgreesWithScan(users: Users, branch: string, pin: string, email: string)
    requires Valid(users) && COLON !in pin && email in users
    ensures SignsInAt(users[email], branch, pin) <==> HoldsLookup(users, email, LookupOf(branch, pin))
    ensures SignsInAt(users[email], branch, pin) ==>
              forall other :: other in users && SignsInAt(users[other], branch, pin) ==> other == email
  {
    SignInIffLookup(users[email], branch, pin);
    forall other | other in users && SignsInAt(users[other], branch, pin)
      ensures HoldsLookup(users, other, LookupOf(branch, pin))
    {
      SignInIffLookup(users[other], branch, pin);
    }
  }

  lemma SignInIffLookup(u: User, branch: string, pin: string)
    requires Coherent(u) && COLON !in pin
    ensures SignsInAt(u, branch, pin) <==> u.lookup == Some(LookupOf(branch, pin))
  {
    if u.lookup.Some? {
      var b, p :| COLON !in p && u.lookup == Some(LookupOf(b, p)) && u.pinHash == Some(Bcrypt(p));
      if u.lookup == Some(LookupOf(branch, pin)) {
        LookupInjective(b, p, branch, pin);
      }
      if pin' :| COLON !in pin' && u.lookup == Some(LookupOf(branch, pin')) {
        LookupInjective(b, p, branch, pin');
      }
    }
  }

  // ---------- Running the importer's list ----------

  function ImportAll(users: Users, bindings: seq<(string, PinSpec)>): Result<Users, PinError> {
    if bindings == [] then Ok(users)
    else
      var before := ImportAll(users, bindings[..|bindings| - 1]);
      var (branch, spec) := bindings[|bindings| - 1];
      if before.Err? then before else ImportOne(before.value, branch, spec)
  }

  function EmailOf(binding: (string, PinSpec)): string {
    binding.1.email
  }

  predicate DistinctEmails(bindings: seq<(string, PinSpec)>) {
    Distinct(Map(EmailOf, bindings))
  }

  /** After a list that went through, each listed user holds exactly the listed PIN. */
  lemma {:induction false} ListedUsersHoldTheirPins(users: Users, bindings: seq<(string, PinSpec)>, i: nat)
    requires ImportAll(users, bindings).Ok? && DistinctEmails(bindings) && i < |bindings|
    ensures var (branch, spec) := bindings[i];
            var after := ImportAll(users, bindings).value;
            && after.Keys == users.Keys
            && (spec.email in users ==>
                  after[spec.email] == User(true, Some(Bcrypt(spec.pin)), Some(Hmac(branch + ":" + spec.pin))))
  {
    var n := |bindings| - 1;
    ImportKeepsUsers(users, bindings[..n]);
    if i < n {
      ListedUsersHoldTheirPins(users, bindings[..n], i);
    }
  }

  lemma {:induction false} ImportKeepsUsers(users: Users, bindings: seq<(string, PinSpec)>)
    requires ImportAll(users, bindings).Ok?
    ensures ImportAll(users, bindings).value.Keys == users.Keys
  {
    if bindings != [] {
      ImportKeepsUsers(users, bindings[..|bindings| - 1]);
    }
  }

  /** A list that went through goes through again and changes nothing. */
  lemma {:induction false} ImportIsIdempotent(users: Users, bindings: seq<(string, PinSpec)>, n: nat)
    requires ImportAll(users, bindings).Ok? && DistinctEmails(bindings) && n <= |bindings|
    requires UniqueLookups(ImportAll(users, bindings).value)
    ensures var after := ImportAll(users, bindings).value;
            ImportAll(after, bindings[..n]) == Ok(after)
  {
    var after := ImportAll(users, bindings).value;
    if n > 0 {
      ImportIsIdempotent(users, bindings, n - 1);
      assert bindings[..n][..n - 1] == bindings[..n - 1];
      ListedUsersHoldTheirPins(users, bindings, n - 1);
      var (branch, spec) := bindings[n - 1];
      if spec.email in after {
        assert !Collides(after, spec.email, LookupOf(branch, spec.pin));
        assert SetPin(after, spec.email, branch, spec.pin) == after;
      }
    }
  }

  // ---------- When the importer's list goes through ----------

  /** The lookup a user holds after some bindings: the last one bound, else the stored one. */
  function LookupAfter(users: Users, bindings: seq<(string, PinSpec)>, email: string): Option<Lookup>
    requires email in users
  {
    if bindings == [] then users[email].lookup
    else
      var (branch, spec) := bindings[|bindings| - 1];
      if spec.email == email then Some(LookupOf(branch, spec.pin))
      else LookupAfter(users, bindings[..|bindings| - 1], email)
  }

  lemma {:induction false} LookupsAfterImport(users: Users, bindings: seq<(string, PinSpec)>)
    requires ImportAll(users, bindings).Ok?
    ensures forall email :: email in users ==>
              && email in ImportAll(users, bindings).value
              && ImportAll(users, bindings).value[email].lookup == LookupAfter(users, bindings, email)
  {
    ImportKeepsUsers(users, bindings);
    if bindings != [] {
      ImportKeepsUsers(users, bindings[..|bindings| - 1]);
      LookupsAfterImport(users, bindings[..|bindings| - 1]);
    }
  }

  /** No other user holds the lookup that a binding asks for, when its turn comes. */
  predicate FreeAt(users: Users, bindings: seq<(string, PinSpec)>, i: nat)
    requires i < |bindings|
  {
    var (branch, spec) := bindings[i];
    spec.email in users ==>
      forall other :: other in users && other != spec.email ==>
        LookupAfter(users, bindings[..i], other) != Some(LookupOf(branch, spec.pin))
  }

  predicate AllFree(users: Users, bindings: seq<(string, PinSpec)>) {
    forall i :: 0 <= i < |bindings| ==> FreeAt(users, bindings, i)
  }

  lemma AllFreeSnoc(users: Users, bindings: seq<(string, PinSpec)>)
    requires bindings != []
    ensures var n := |bindings| - 1;
            AllFree(users, bindings) <==> AllFree(users, bindings[..n]) && FreeAt(users, bindings, n)
  {
    var n := |bindings| - 1;
    forall i | 0 <= i < n ensures FreeAt(users, bindings[..n], i) <==> FreeAt(users, bindings, i) {
      assert bindings[..n][..i] == bindings[..i];
    }
  }

  /** The exact condition, for any table and any list, repeated users included. */
  lemma {:induction false} ImportSucceedsIff(users: Users, bindings: seq<(string, PinSpec)>)
    ensures ImportAll(users, bindings).Ok? <==> AllFree(users, bindings)
  {
    if bindings != [] {
      var n := |bindings| - 1;
      ImportSucceedsIff(users, bindings[..n]);
      AllFreeSnoc(users, bindings);
      if ImportAll(users, bindings[..n]).Ok? {
        ImportKeepsUsers(users, bindings[..n]);
        LookupsAfterImport(users, bindings[..n]);
        var (branch, spec) := bindings[n];
        assert spec.email in users ==>
                 (Collides(ImportAll(users, bindings[..n]).value, spec.email, LookupOf(branch, spec.pin)) <==>
                  !FreeAt(users, bindings, n));
      }
    }
  }

  /** The lookup that a binding asks for was not bound before, and every other user it is stored
      with is bound to something else first. */
  predicate Untaken(users: Users, bindings: seq<(string, PinSpec)>, i: nat)
    requires i < |bindings|
  {
    var (branch, spec) := bindings[i];
    spec.email in users ==>
      && (forall j :: 0 <= j < i && bindings[j].1.email in users ==>
            LookupOf(bindings[j].0, bindings[j].1.pin) != LookupOf(branch, spec.pin))
      && (forall other :: other in users && other != spec.email
                          && users[other].lookup == Some(LookupOf(branch, spec.pin)) ==>
            exists j :: 0 <= j < i && bindings[j].1.email == other)
  }

  lemma {:induction false} LookupAfterDistinct(users: Users, bindings: seq<(string, PinSpec)>, email: string)
    requires email in users && DistinctEmails(bindings)
    ensures forall j :: 0 <= j < |bindings| && bindings[j].1.email == email ==>
              LookupAfter(users, bindings, email) == Some(LookupOf(bindings[j].0, bindings[j].1.pin))
    ensures (forall j :: 0 <= j < |bindings| ==> bindings[j].1.email != email) ==>
              LookupAfter(users, bindings, email) == users[email].lookup
  {
    if bindings != [] {
      var n := |bindings| - 1;
      var emails := Map(EmailOf, bindings);
      assert Map(EmailOf, bindings[..n]) == emails[..n];
      LookupAfterDistinct(users, bindings[..n], email);
      forall j | 0 <= j < n ensures bindings[..n][j] == bindings[j] && emails[j] != emails[n] {
      }
    }
  }

  /** For a list that names each user once, as the importer's does, the condition reads off the
      list and the stored table. */
  lemma {:induction false} DistinctImportSucceedsIff(users: Users, bindings: seq<(string, PinSpec)>)
    requires DistinctEmails(bindings)
    ensures ImportAll(users, bindings).Ok? <==> forall i :: 0 <= i < |bindings| ==> Untaken(users, bindings, i)
  {
    ImportSucceedsIff(users, bindings);
    forall i | 0 <= i < |bindings| ensures FreeAt(users, bindings, i) <==> Untaken(users, bindings, i) {
      FreeIffUntaken(users, bindings, i);
    }
  }

  lemma FreeIffUntaken(users: Users, bindings: seq<(string, PinSpec)>, i: nat)
    requires DistinctEmails(bindings) && i < |bindings|
    ensures FreeAt(users, bindings, i) <==> Untaken(users, bindings, i)
  {
    var (branch, spec) := bindings[i];
    var lookup, before := LookupOf(branch, spec.pin), bindings[..i];
    var emails := Map(EmailOf, bindings);
    assert Map(EmailOf, before) == emails[..i];
    forall other | other in users
      ensures forall j :: 0 <= j < i && bindings[j].1.email == other ==>
                LookupAfter(users, before, other) == Some(LookupOf(bindings[j].0, bindings[j].1.pin))
      ensures (forall j :: 0 <= j < i ==> bindings[j].1.email != other) ==>
                LookupAfter(users, before, other) == users[other].lookup
    {
      LookupAfterDistinct(users, before, other);
      assert forall j :: 0 <= j < i ==> before[j] == bindings[j];
    }
    forall j | 0 <= j < i ensures bindings[j].1.email != spec.email {
      assert emails[j] != emails[i];
    }
  }

  /** So the importer is not free to reassign: exchanging the PINs of two users at one branch
      fails on the first of them, although the exchanged table would be valid. */
  lemma {:induction false} ExchangeFails(a: string, b: string, branch: string, p: string, q: string)
    requires a != b && p != q && COLON !in p && COLON !in q
    ensures var unset: Users := map[a := User(false, None, None), b := User(false, None, None)];
            var before := SetPin(SetPin(unset, a, branch, p), b, branch, q);
            var exchanged := SetPin(SetPin(before, a, branch, q), b, branch, p);
            && Valid(before) && Valid(exchanged)
            && ImportAll(before, [(branch, PinSpec(a, q)), (branch, PinSpec(b, p))]) == Err(LookupCollision(a))
  {
    var empty: Users := map[a := User(false, None, None), b := User(false, None, None)];
    var one := SetPin(empty, a, branch, p);
    var before := SetPin(one, b, branch, q);
    if LookupOf(branch, p) == LookupOf(branch, q) {
      LookupInjective(branch, p, branch, q);
    }
    SetPinKeepsValid(empty, a, branch, p);
    SetPinKeepsValid(one, b, branch, q);
    var exchanged := SetPin(SetPin(before, a, branch, q), b, branch, p);
    assert Coherent(exchanged[a]) && Coherent(exchanged[b]);
    var bindings := [(branch, PinSpec(a, q)), (branch, PinSpec(b, p))];
    assert bindings[..1] == [(branch, PinSpec(a, q))] && bindings[..1][..0] == [];
    assert ImportAll(before, bindings[..1][..0]) == Ok(before);
    assert b in before && before[b].lookup == Some(LookupOf(branch, q));
    assert Collides(before, a, LookupOf(branch, q));
    assert ImportAll(before, bindings[..1]) == Err(LookupCollision(a));
  }
}
