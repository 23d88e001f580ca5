/**
  * Start-up seeding (API/Data/DbInitializer.cs): catalogue products upserted by name,
  * the three roles, and the three demonstration users kept in sync. The seed catalogue
  * itself is an input (its discount dates are read from the clock when it is built).
  */
module Seeding {
  import opened Wrappers
  import opened Text
  import opened Queries
  import opened Entities
  import opened Identity

  // ---- Products ------------------------------------------------------------

  /** The index of the first row with this name (`FirstOrDefaultAsync(p => p.Name == name)`). */
  function FirstByName(rows: seq<Product>, name: string): (r: Option<nat>)
    ensures r.Some? ==> r.value < |rows| && rows[r.value].name == name
    ensures r.Some? ==> forall j :: 0 <= j < r.value ==> rows[j].name != name
    ensures r.None? <==> !NameIn(rows, name)
  {
    if |rows| == 0 then None
    else if rows[0].name == name then Some(0)
    else match FirstByName(rows[1..], name)
      case None => None
      case Some(i) => Some(i + 1)
  }

  predicate NameIn(rows: seq<Product>, name: string)
  {
    exists i :: 0 <= i < |rows| && rows[i].name == name
  }

  /** The fields an existing product takes from its seed; everything else, name and stock included, is kept. */
  function Overwrite(existing: Product, seed: Product): (r: Product)
    ensures r.id == existing.id && r.name == existing.name && r.quantityInStock == existing.quantityInStock
    ensures r.isActive == existing.isActive && r.supplier == existing.supplier && r.supplierId == existing.supplierId
    ensures r.soldQuantity == existing.soldQuantity && r.createdAt == existing.createdAt && r.updatedAt == existing.updatedAt
    ensures r.category == seed.category && r.businessType == seed.businessType && r.tags == seed.tags
    ensures r.isFeatured == seed.isFeatured && r.discountAmount == seed.discountAmount
    ensures r.discountStartUtc == seed.discountStartUtc && r.discountEndUtc == seed.discountEndUtc
    ensures r.price == seed.price && r.description == seed.description && r.pictureUrl == seed.pictureUrl
    ensures r.brand == seed.brand && r.productType == seed.productType
  {
    existing.(category := seed.category, businessType := seed.businessType, tags := seed.tags,
              isFeatured := seed.isFeatured, discountAmount := seed.discountAmount,
              discountStartUtc := seed.discountStartUtc, discountEndUtc := seed.discountEndUtc,
              price := seed.price, description := seed.description, pictureUrl := seed.pictureUrl,
              brand := seed.brand, productType := seed.productType)
  }

  /** Overwriting twice is overwriting with the later seed. */
  lemma OverwriteTwice(p: Product, s1: Product, s2: Product)
    ensures Overwrite(Overwrite(p, s1), s2) == Overwrite(p, s2)
  {
  }

  /** The loop state: saved rows (tracked, possibly modified) and rows added in this run. */
  datatype SeedState = SeedState(rows: seq<Product>, added: seq<Product>)

  /** One loop iteration. The lookup sees only saved rows: products added earlier in the run are not found. */
  function SeedStep(st: SeedState, seed: Product): (r: SeedState)
    ensures |r.rows| == |st.rows|
    ensures forall i :: 0 <= i < |st.rows| ==> r.rows[i].name == st.rows[i].name
  {
    match FirstByName(st.rows, seed.name)
    case None => st.(added := st.added + [seed])
    case Some(i) => st.(rows := st.rows[i := Overwrite(st.rows[i], seed)])
  }

  /** The `foreach` over the seeds, in order: the state after the last seed is one step after the state before it. */
  function SeedLoop(rows: seq<Product>, seeds: seq<Product>): (r: SeedState)
    ensures |r.rows| == |rows|
    ensures forall i :: 0 <= i < |rows| ==> r.rows[i].name == rows[i].name
    decreases |seeds|
  {
    if |seeds| == 0 then SeedState(rows, [])
    else SeedStep(SeedLoop(rows, seeds[..|seeds| - 1]), seeds[|seeds| - 1])
  }

  /** `SeedProductsAsync`: the table after `SaveChangesAsync`, saved rows first, then the added ones. */
  function SeedProducts(rows: seq<Product>, seeds: seq<Product>): (r: seq<Product>)
    ensures |r| >= |rows|
    ensures forall i :: 0 <= i < |rows| ==> KeepsIdentity(rows[i], r[i])
    ensures forall i :: 0 <= i < |rows| && (FirstByName(rows, rows[i].name) != Some(i) || !NameIn(seeds, rows[i].name)) ==>
      r[i] == rows[i]
    ensures r[|rows|..] == Where(seeds, (s: Product) => !NameIn(rows, s.name))
  {
    var st := SeedLoop(rows, seeds);
    SeedProductsIsExpected(rows, seeds, st.rows + st.added);
    st.rows + st.added
  }

  /** The fields seeding never writes on an existing row. */
  predicate KeepsIdentity(before: Product, after: Product)
  {
    && after.id == before.id && after.name == before.name && after.quantityInStock == before.quantityInStock
    && after.isActive == before.isActive && after.supplier == before.supplier && after.supplierId == before.supplierId
    && after.soldQuantity == before.soldQuantity && after.createdAt == before.createdAt && after.updatedAt == before.updatedAt
  }

  /** Every seed with this name applied in order to one product. */
  function ApplySeeds(p: Product, seeds: seq<Product>): Product
    decreases |seeds|
  {
    if |seeds| == 0 then p
    else ApplySeeds(if seeds[0].name == p.name then Overwrite(p, seeds[0]) else p, seeds[1..])
  }

  /** The declarative result: each row that is first with its name takes every seed of that name; seeds with new names are appended in order. */
  function Expected(rows: seq<Product>, seeds: seq<Product>): seq<Product>
  {
    seq(|rows|, i requires 0 <= i < |rows| =>
      if FirstByName(rows, rows[i].name) == Some(i) then ApplySeeds(rows[i], seeds) else rows[i])
    + Where(seeds, (s: Product) => !NameIn(rows, s.name))
  }

  /** The rows the loop holds after a prefix of the seeds, in declarative form. */
  predicate LoopMatches(rows: seq<Product>, done: seq<Product>, st: SeedState)
  {
    && |st.rows| == |rows|
    && (forall i :: 0 <= i < |rows| ==>
          (st.rows[i] == if FirstByName(rows, rows[i].name) == Some(i) then ApplySeeds(rows[i], done) else rows[i]))
    && st.added == Where(done, (s: Product) => !NameIn(rows, s.name))
  }

  /** Applying one more seed at the end. */
  lemma {:induction false} ApplySeedsSnoc(p: Product, done: seq<Product>, s: Product)
    ensures ApplySeeds(p, done + [s]) ==
      (if s.name == p.name then Overwrite(ApplySeeds(p, done), s) else ApplySeeds(p, done))
    ensures ApplySeeds(p, done).name == p.name
    decreases |done|
  {
    if |done| > 0 {
      assert (done + [s])[1..] == done[1..] + [s];
      ApplySeedsSnoc(if done[0].name == p.name then Overwrite(p, done[0]) else p, done[1..], s);
    }
  }

  /** One iteration keeps the invariant. */
  lemma SeedStepMatches(rows: seq<Product>, done: seq<Product>, st: SeedState, s: Product)
    requires LoopMatches(rows, done, st)
    ensures LoopMatches(rows, done + [s], SeedStep(st, s))
  {
    var st' := SeedStep(st, s);
    forall i | 0 <= i < |rows|
      ensures st.rows[i].name == rows[i].name
    {
      ApplySeedsSnoc(rows[i], done, s);
    }
    SameNamesSameFirst(st.rows, rows);
    NameInSame(st.rows, rows, s.name);
    forall i | 0 <= i < |rows|
      ensures st'.rows[i] ==
        (if FirstByName(rows, rows[i].name) == Some(i) then ApplySeeds(rows[i], done + [s]) else rows[i])
    {
      ApplySeedsSnoc(rows[i], done, s);
    }
    WhereSnoc(done, s, (x: Product) => !NameIn(rows, x.name));
  }

  lemma BaseMatches(rows: seq<Product>)
    ensures LoopMatches(rows, [], SeedLoop(rows, []))
  {
  }

  /** The last iteration keeps the invariant. */
  lemma SeedStepAt(rows: seq<Product>, seeds: seq<Product>)
    requires |seeds| > 0
    requires LoopMatches(rows, seeds[..|seeds| - 1], SeedLoop(rows, seeds[..|seeds| - 1]))
    ensures LoopMatches(rows, seeds, SeedLoop(rows, seeds))
  {
    var done := seeds[..|seeds| - 1];
    SeedStepMatches(rows, done, SeedLoop(rows, done), seeds[|seeds| - 1]);
    SplitLast(seeds);
  }

  /** The loop invariant: after any prefix of the seeds, the state is the declarative result for that prefix. */
  lemma {:induction false} SeedLoopMatches(rows: seq<Product>, seeds: seq<Product>)
    ensures LoopMatches(rows, seeds, SeedLoop(rows, seeds))
    decreases |seeds|
  {
    if |seeds| == 0 {
      assert seeds == [];
      BaseMatches(rows);
    } else {
      var done := seeds[..|seeds| - 1];
      SeedLoopMatches(rows, done);
      SeedStepAt(rows, seeds);
    }
  }

  /** Two row lists with the same names pointwise have the same first-by-name lookups. */
  lemma {:induction false} SameNamesSameFirst(a: seq<Product>, b: seq<Product>)
    requires |a| == |b| && forall i :: 0 <= i < |a| ==> a[i].name == b[i].name
    ensures forall n :: FirstByName(a, n) == FirstByName(b, n)
    decreases |a|
  {
    if |a| > 0 {
      SameNamesSameFirst(a[1..], b[1..]);
    }
  }

  lemma NameInSame(a: seq<Product>, b: seq<Product>, n: string)
    requires |a| == |b| && forall i :: 0 <= i < |a| ==> a[i].name == b[i].name
    ensures NameIn(a, n) <==> NameIn(b, n)
  {
    if NameIn(a, n) {
      var i :| 0 <= i < |a| && a[i].name == n;
      assert b[i].name == n;
    }
    if NameIn(b, n) {
      var i :| 0 <= i < |b| && b[i].name == n;
      assert a[i].name == n;
    }
  }

  /** The seeding loop computes the declarative result, whose rows keep their identity fields. */
  lemma SeedProductsIsExpected(rows: seq<Product>, seeds: seq<Product>, r: seq<Product>)
    requires r == SeedLoop(rows, seeds).rows + SeedLoop(rows, seeds).added
    ensures r == Expected(rows, seeds)
    ensures forall i :: 0 <= i < |rows| ==> KeepsIdentity(rows[i], r[i])
    ensures forall i :: 0 <= i < |rows| && !NameIn(seeds, rows[i].name) ==> r[i] == rows[i]
  {
    LoopRowsExpected(rows, seeds);
    forall i | 0 <= i < |rows|
      ensures KeepsIdentity(rows[i], r[i])
      ensures !NameIn(seeds, rows[i].name) ==> r[i] == rows[i]
    {
      RowAfterSeeding(rows, seeds, i);
    }
  }

  /** The loop's saved table is the declarative result. */
  lemma LoopRowsExpected(rows: seq<Product>, seeds: seq<Product>)
    ensures |SeedLoop(rows, seeds).rows| == |rows|
    ensures SeedLoop(rows, seeds).rows + SeedLoop(rows, seeds).added == Expected(rows, seeds)
  {
    SeedLoopMatches(rows, seeds);
    var st := SeedLoop(rows, seeds);
    assert st.rows == seq(|rows|, i requires 0 <= i < |rows| =>
      if FirstByName(rows, rows[i].name) == Some(i) then ApplySeeds(rows[i], seeds) else rows[i]);
  }

  /** A saved row keeps its identity, and a row whose name no seed carries is unchanged. */
  lemma RowAfterSeeding(rows: seq<Product>, seeds: seq<Product>, i: nat)
    requires i < |rows|
    ensures i < |SeedLoop(rows, seeds).rows|
    ensures KeepsIdentity(rows[i], SeedLoop(rows, seeds).rows[i])
    ensures !NameIn(seeds, rows[i].name) ==> SeedLoop(rows, seeds).rows[i] == rows[i]
  {
    SeedLoopMatches(rows, seeds);
    ApplySeedsChar(rows[i], seeds);
  }

  /** The last seed with this name. */
  function LastNamed(seeds: seq<Product>, name: string): (s: Product)
    requires NameIn(seeds, name)
    ensures s in seeds && s.name == name
    decreases |seeds|
  {
    if NameIn(seeds[1..], name) then LastNamed(seeds[1..], name)
    else
      seeds[0]
  }

  /** Applying the seeds to a product is overwriting it with the last seed of its name, if any. */
  lemma {:induction false} ApplySeedsChar(p: Product, seeds: seq<Product>)
    ensures ApplySeeds(p, seeds) == if NameIn(seeds, p.name) then Overwrite(p, LastNamed(seeds, p.name)) else p
    decreases |seeds|
  {
    if |seeds| > 0 {
      var p' := if seeds[0].name == p.name then Overwrite(p, seeds[0]) else p;
      ApplySeedsChar(p', seeds[1..]);
      if NameIn(seeds[1..], p.name) {
        OverwriteTwice(p, seeds[0], LastNamed(seeds[1..], p.name));
      }
    }
  }

  /** No two seeds share a name. */
  predicate DistinctNames(seeds: seq<Product>)
  {
    forall i, j :: 0 <= i < j < |seeds| ==> seeds[i].name != seeds[j].name
  }

  /** With distinct names, the last seed of a name is the only one. */
  lemma {:induction false} LastNamedDistinct(seeds: seq<Product>, j: int)
    requires DistinctNames(seeds) && 0 <= j < |seeds|
    ensures NameIn(seeds, seeds[j].name) && LastNamed(seeds, seeds[j].name) == seeds[j]
    decreases |seeds|
  {
    assert NameIn(seeds, seeds[j].name);
    if j > 0 {
      assert seeds[1..][j - 1] == seeds[j];
      LastNamedDistinct(seeds[1..], j - 1);
    }
  }

  /** Filtering keeps names distinct. */
  lemma {:induction false} WhereDistinct(seeds: seq<Product>, f: Product -> bool)
    requires DistinctNames(seeds)
    ensures DistinctNames(Where(seeds, f))
    decreases |seeds|
  {
    if |seeds| > 0 {
      WhereDistinct(seeds[1..], f);
      var rest := Where(seeds[1..], f);
      forall k | 0 <= k < |rest|
        ensures rest[k].name != seeds[0].name
      {
        assert rest[k] in seeds[1..];
      }
    }
  }

  /**
    * Seeding twice with the same catalogue equals seeding once, when the catalogue's names
    * are distinct.
    */
  lemma SeedProductsIdempotent(rows: seq<Product>, seeds: seq<Product>)
    requires DistinctNames(seeds)
    ensures SeedProducts(SeedProducts(rows, seeds), seeds) == SeedProducts(rows, seeds)
  {
    var absent := (s: Product) => !NameIn(rows, s.name);
    var e1 := SeedProducts(rows, seeds);
    var added := Where(seeds, absent);
    assert e1[|rows|..] == added;
    WhereDistinct(seeds, absent);
    // Every seed's name is now in the table.
    forall s | s in seeds
      ensures NameIn(e1, s.name)
    {
      if NameIn(rows, s.name) {
        var i :| 0 <= i < |rows| && rows[i].name == s.name;
        assert e1[i].name == s.name;
      } else {
        assert s in added;
        var k :| 0 <= k < |added| && added[k] == s;
        assert e1[|rows| + k] == s;
      }
    }
    var absent2 := (s: Product) => !NameIn(e1, s.name);
    WhereNone(seeds, absent2);
    var e2 := SeedProducts(e1, seeds);
    SeedProductsIsExpected(e1, seeds, e2);
    forall i | 0 <= i < |e1|
      ensures e2[i] == e1[i]
    {
      SecondRunRow(rows, seeds, e1, i);
    }
    assert e2 == e2[..|e1|] + e2[|e1|..];
  }

  /** A filter that rejects every element returns nothing. */
  lemma WhereNone(s: seq<Product>, f: Product -> bool)
    requires forall x :: x in s ==> !f(x)
    ensures Where(s, f) == []
  {
  }

  /** On the second run each row of the first run's table is already in its final state. */
  lemma SecondRunRow(rows: seq<Product>, seeds: seq<Product>, e1: seq<Product>, i: int)
    requires DistinctNames(seeds) && e1 == SeedProducts(rows, seeds) && 0 <= i < |e1|
    ensures (if FirstByName(e1, e1[i].name) == Some(i) then ApplySeeds(e1[i], seeds) else e1[i]) == e1[i]
  {
    if FirstByName(e1, e1[i].name) == Some(i) {
      ApplySeedsChar(e1[i], seeds);
      if i < |rows| {
        SeedProductsIsExpected(rows, seeds, e1);
        FirstByNamePrefix(rows, e1, i);
        ApplySeedsChar(rows[i], seeds);
        if NameIn(seeds, rows[i].name) {
          OverwriteTwice(rows[i], LastNamed(seeds, rows[i].name), LastNamed(seeds, rows[i].name));
        }
      } else {
        var added := Where(seeds, (s: Product) => !NameIn(rows, s.name));
        assert e1[|rows|..] == added;
        var k := i - |rows|;
        assert e1[i] == added[k];
        assert added[k] in seeds;
        var j :| 0 <= j < |seeds| && seeds[j] == added[k];
        LastNamedDistinct(seeds, j);
      }
    }
  }

  /** A row that is first with its name in the original table is still first after seeding. */
  lemma FirstByNamePrefix(rows: seq<Product>, e1: seq<Product>, i: int)
    requires |e1| >= |rows| && 0 <= i < |rows|
    requires forall j :: 0 <= j < |rows| ==> e1[j].name == rows[j].name
    ensures FirstByName(e1, e1[i].name) == Some(i) ==> FirstByName(rows, rows[i].name) == Some(i)
  {
    if FirstByName(e1, e1[i].name) == Some(i) {
      var f := FirstByName(rows, rows[i].name);
      assert f.Some?;
    }
  }

  // ---- Roles and users -----------------------------------------------------

  datatype SeedError =
    | RoleCreateFailed(role: string)
    | AddRoleFailed(role: string, email: string)
    | CreateUserFailed(email: string)

  /** The roles seeding creates, matching the account types. */
  const SeedRoleNames: seq<string> := ["User", "Business", "Admin"]

  /** The elements of a list, as a set. */
  function Elements(names: seq<string>): (r: set<string>)
    ensures forall i :: 0 <= i < |names| ==> names[i] in r
    ensures forall x :: x in r ==> x in names
  {
    if |names| == 0 then {} else {names[0]} + Elements(names[1..])
  }

  /** A role is present already, or creating it would succeed. */
  predicate Creatable(store: Store, name: string, createOk: string -> bool)
  {
    name in store.roles || createOk(name)
  }

  /** Role `i` is the first that cannot be created, and the roles listed before it were added. */
  predicate FirstFailure(store: Store, names: seq<string>, createOk: string -> bool, i: int, r: (Store, Option<SeedError>))
  {
    && 0 <= i < |names|
    && r.1 == Some(RoleCreateFailed(names[i]))
    && !Creatable(store, names[i], createOk)
    && (forall j :: 0 <= j < i ==> Creatable(store, names[j], createOk))
    && r.0.roles == store.roles + Elements(names[..i])
  }

  /** A first failure after a creatable head is a first failure one position further on. */
  lemma FirstFailureCons(store: Store, names: seq<string>, createOk: string -> bool, k: int, r: (Store, Option<SeedError>))
    requires |names| > 0 && Creatable(store, names[0], createOk)
    requires FirstFailure(store.(roles := store.roles + {names[0]}), names[1..], createOk, k, r)
    ensures FirstFailure(store, names, createOk, k + 1, r)
  {
    var s1 := store.(roles := store.roles + {names[0]});
    assert names[..k + 1][1..] == names[1..][..k];
    assert Elements(names[..k + 1]) == {names[0]} + Elements(names[1..][..k]);
    forall j | 0 <= j < k + 1
      ensures Creatable(store, names[j], createOk)
    {
      if j > 0 {
        assert names[j] == names[1..][j - 1];
        assert Creatable(s1, names[1..][j - 1], createOk);
      }
    }
    assert names[k + 1] == names[1..][k];
  }

  /**
    * Creates each listed role that is missing. `CreateAsync` saves each role as it goes, so the
    * first failed creation aborts (the exception) and the roles created before it stay.
    */
  function EnsureRoles(store: Store, names: seq<string>, createOk: string -> bool): (r: (Store, Option<SeedError>))
    ensures r.0.users == store.users
    ensures r.1.None? <==> forall i :: 0 <= i < |names| ==> Creatable(store, names[i], createOk)
    ensures r.1.None? ==> r.0.roles == store.roles + Elements(names)
    ensures r.1.Some? ==> exists i :: FirstFailure(store, names, createOk, i, r)
    decreases |names|
  {
    if |names| == 0 then (store, None)
    else if !Creatable(store, names[0], createOk) then
      assert names[..0] == [];
      assert FirstFailure(store, names, createOk, 0, (store, Some(RoleCreateFailed(names[0]))));
      (store, Some(RoleCreateFailed(names[0])))
    else
      var s1 := store.(roles := store.roles + {names[0]});
      var r := EnsureRoles(s1, names[1..], createOk);
      assert forall i :: 1 <= i < |names| ==> names[i] == names[1..][i - 1];
      if r.1.Some? then
        var k :| FirstFailure(s1, names[1..], createOk, k, r);
        FirstFailureCons(store, names, createOk, k, r);
        r
      else
        r
  }

  /** Every seed role is present already, or creating it would succeed. */
  predicate RolesCreatable(store: Store, createOk: string -> bool)
  {
    forall i :: 0 <= i < |SeedRoleNames| ==> Creatable(store, SeedRoleNames[i], createOk)
  }

  /** The role half of `SeedIdentityAsync`. */
  function SeedRoles(store: Store, createOk: string -> bool): (r: (Store, Option<SeedError>))
    ensures r.0.users == store.users
    ensures r.1.None? ==> r.0.roles == store.roles + {"User", "Business", "Admin"}
    ensures r.1.None? <==> RolesCreatable(store, createOk)
    ensures r.1.Some? ==> exists i :: FirstFailure(store, SeedRoleNames, createOk, i, r)
  {
    var r := EnsureRoles(store, SeedRoleNames, createOk);
    assert Elements(SeedRoleNames) == {"User", "Business", "Admin"};
    r
  }

  /** Once the roles exist, seeding them again creates nothing, whatever creation would report. */
  lemma SeedRolesIdempotent(store: Store, createOk: string -> bool, createOk2: string -> bool)
    requires SeedRoles(store, createOk).1.None?
    ensures SeedRoles(SeedRoles(store, createOk).0, createOk2) == SeedRoles(store, createOk)
  {
    var s1 := SeedRoles(store, createOk).0;
    SeedRolesPresent(s1, createOk2);
  }

  /** One demonstration account as `SeedIdentityAsync` passes it to `EnsureUserAsync`. */
  datatype SeedUser = SeedUser(
    email: string,
    accountType: AccountType,
    role: string,
    businessName: Option<string>,
    taxId: Option<string>,
    address: Address
  )

  /** What the identity calls of one `EnsureUserAsync` report. */
  datatype EnsureOutcomes = EnsureOutcomes(addRoleOk: bool, createOk: bool, addRoleNewOk: bool)

  /**
    * `EnsureUserAsync`. An existing user gets the role if missing and, when its account type
    * differs, the type and business fields; its address is never touched. A new user is created
    * with the given fields and then given the role. Any failed call aborts with an error and
    * keeps what was already saved.
    */
  function EnsureUser(store: Store, u: SeedUser, newId: string, outcomes: EnsureOutcomes): (r: (Store, Option<SeedError>))
    ensures r.0.roles == store.roles
    ensures OthersUnchanged(store, r.0, NormalizeKey(u.email))
    ensures NormalizeKey(u.email) in store.users ==> NormalizeKey(u.email) in r.0.users
    ensures NormalizeKey(u.email) in store.users ==>
      var before := store.users[NormalizeKey(u.email)];
      var after := r.0.users[NormalizeKey(u.email)];
      && after.user.shippingAddress == before.user.shippingAddress
      && after.user.id == before.user.id && after.user.email == before.user.email && after.user.userName == before.user.userName
      && (u.role in before.roles ==> after.roles == before.roles)
      && (r.1.None? ==> after.roles == before.roles + {u.role})
      && (r.1.None? && before.user.accountType != u.accountType ==>
            after.user == before.user.(accountType := u.accountType, businessName := u.businessName, taxId := u.taxId))
      && (before.user.accountType == u.accountType ==> after.user == before.user)
    ensures NormalizeKey(u.email) !in store.users && r.1.None? ==>
      r.0.users == store.users[NormalizeKey(u.email) :=
        UserRecord(NewUser(newId, u.email, u.email, u.accountType, u.businessName, u.taxId, Some(u.address.(userId := newId))), {u.role})]
    ensures r.1.None? ==> Seeded(r.0, u)
    ensures r.1.Some? ==> !r.1.value.RoleCreateFailed? && r.1.value.email == u.email
    ensures r.1.None? <==>
      if NormalizeKey(u.email) in store.users
      then u.role in store.users[NormalizeKey(u.email)].roles || (outcomes.addRoleOk && u.role in store.roles)
      else outcomes.createOk && outcomes.addRoleNewOk && u.role in store.roles
  {
    var key := NormalizeKey(u.email);
    match FindByEmail(store, u.email)
    case Some(existing) =>
      var s1r: Result<Store, SeedError> :=
        if u.role in existing.roles then Ok(store)
        else match AddToRole(store, key, u.role, outcomes.addRoleOk)
          case None => Err(AddRoleFailed(u.role, u.email))
          case Some(s) => Ok(s);
      if s1r.Err? then (store, Some(s1r.error))
      else
        var s1 := s1r.value;
        var rec := s1.users[key];
        if rec.user.accountType != u.accountType then
          var user' := rec.user.(accountType := u.accountType, businessName := u.businessName, taxId := u.taxId);
          (s1.(users := s1.users[key := rec.(user := user')]), None)
        else (s1, None)
    case None =>
      var user := NewUser(newId, u.email, u.email, u.accountType, u.businessName, u.taxId, Some(u.address.(userId := newId)));
      match CreateUser(store, user, outcomes.createOk)
      case None => (store, Some(CreateUserFailed(u.email)))
      case Some(s1) =>
        match AddToRole(s1, key, u.role, outcomes.addRoleNewOk)
        case None => (s1, Some(AddRoleFailed(u.role, u.email)))
        case Some(s2) =>
          assert s2.users[key].roles == {u.role};
          (s2, None)
  }

  /** The account exists under its email, has its role and its account type. */
  predicate Seeded(store: Store, u: SeedUser)
  {
    var key := NormalizeKey(u.email);
    key in store.users && u.role in store.users[key].roles && store.users[key].user.accountType == u.accountType
  }

  /** On an account that is already seeded, `EnsureUserAsync` changes nothing and succeeds, whatever the calls would report. */
  lemma EnsureUserNoop(store: Store, u: SeedUser, newId: string, outcomes: EnsureOutcomes)
    requires Seeded(store, u)
    ensures EnsureUser(store, u, newId, outcomes) == (store, None)
  {
  }

  /** The three demonstration accounts, in the order they are ensured. */
  const SeedUsers: seq<SeedUser> := [
    SeedUser("public@test.com", Public, "User", None, None,
             Address("Public User", "100 Public St", None, "New York", "NY", "10001", "US", "555-000-0001", "")),
    SeedUser("business@test.com", Business, "Business", Some("NeoWasl Business LLC"), Some("11-1111111"),
             Address("Business Owner", "200 Business Ave", Some("Suite 10"), "Bronx", "NY", "10459", "US", "555-100-0001", "")),
    SeedUser("admin@test.com", Admin, "Admin", None, None,
             Address("Admin User", "1 Admin Plaza", None, "New York", "NY", "10005", "US", "555-900-0001", ""))
  ]

  /** No two accounts share a lookup key. */
  predicate DistinctKeys(us: seq<SeedUser>)
  {
    forall i, j :: 0 <= i < j < |us| ==> NormalizeKey(us[i].email) != NormalizeKey(us[j].email)
  }

  /** Ensures each account in order; the first error aborts the rest. */
  function EnsureUsers(store: Store, us: seq<SeedUser>, ids: string -> string, outcomes: string -> EnsureOutcomes): (r: (Store, Option<SeedError>))
    ensures r.0.roles == store.roles
    ensures forall v :: Seeded(store, v) && (forall i :: 0 <= i < |us| ==> NormalizeKey(us[i].email) != NormalizeKey(v.email)) ==>
      Seeded(r.0, v)
    ensures r.1.None? && DistinctKeys(us) ==> forall i :: 0 <= i < |us| ==> Seeded(r.0, us[i])
    ensures r.1.Some? ==> !r.1.value.RoleCreateFailed? && exists i :: 0 <= i < |us| && r.1.value.email == us[i].email
    ensures |us| > 0 && EnsureUser(store, us[0], ids(us[0].email), outcomes(us[0].email)).1.Some? ==>
      r == EnsureUser(store, us[0], ids(us[0].email), outcomes(us[0].email))
    decreases |us|
  {
    if |us| == 0 then (store, None)
    else
      var first := EnsureUser(store, us[0], ids(us[0].email), outcomes(us[0].email));
      if first.1.Some? then first
      else
        var r := EnsureUsers(first.0, us[1..], ids, outcomes);
        assert forall i :: 1 <= i < |us| ==> us[i] == us[1..][i - 1];
        r
  }

  /** On accounts that are all seeded, ensuring them again changes nothing. */
  lemma {:induction false} EnsureUsersNoop(store: Store, us: seq<SeedUser>, ids: string -> string, outcomes: string -> EnsureOutcomes)
    requires forall i :: 0 <= i < |us| ==> Seeded(store, us[i])
    ensures EnsureUsers(store, us, ids, outcomes) == (store, None)
    decreases |us|
  {
    if |us| > 0 {
      EnsureUserNoop(store, us[0], ids(us[0].email), outcomes(us[0].email));
      EnsureUsersNoop(store, us[1..], ids, outcomes);
    }
  }

  /**
    * `SeedIdentityAsync`: the roles, then the three accounts. A role that cannot be created
    * aborts before any account, keeping the roles created before it; once the roles exist,
    * they stay whatever happens to the accounts.
    */
  function SeedIdentity(store: Store, createRoleOk: string -> bool, ids: string -> string, outcomes: string -> EnsureOutcomes): (r: (Store, Option<SeedError>))
    ensures r.1.None? ==> r.0.roles == store.roles + {"User", "Business", "Admin"}
    ensures r.1.None? ==> forall i :: 0 <= i < |SeedUsers| ==> Seeded(r.0, SeedUsers[i])
    ensures !RolesCreatable(store, createRoleOk) ==> r.0.users == store.users
    ensures !RolesCreatable(store, createRoleOk) ==> exists i :: FirstFailure(store, SeedRoleNames, createRoleOk, i, r)
    ensures RolesCreatable(store, createRoleOk) ==> r.0.roles == store.roles + {"User", "Business", "Admin"}
    ensures RolesCreatable(store, createRoleOk) && r.1.Some? ==>
      !r.1.value.RoleCreateFailed? && exists i :: 0 <= i < |SeedUsers| && r.1.value.email == SeedUsers[i].email
  {
    SeedUserKeysDistinct();
    var (s1, err) := SeedRoles(store, createRoleOk);
    if err.Some? then (s1, err)
    else EnsureUsers(s1, SeedUsers, ids, outcomes)
  }

  /** On an empty store where only "User" can be created, "User" stays saved and "Business" is reported. */
  lemma SeedIdentityKeepsEarlierRoles(ids: string -> string, outcomes: string -> EnsureOutcomes)
    ensures var r := SeedIdentity(Store(map[], {}), (n: string) => n == "User", ids, outcomes);
      r.0 == Store(map[], {"User"}) && r.1 == Some(RoleCreateFailed("Business"))
  {
    var store := Store(map[], {});
    var createOk := (n: string) => n == "User";
    assert !Creatable(store, SeedRoleNames[1], createOk);
    var i :| FirstFailure(store, SeedRoleNames, createOk, i, SeedIdentity(store, createOk, ids, outcomes));
    assert i == 1;
    assert SeedRoleNames[..1] == ["User"];
  }

  /** Fresh accounts whose roles exist are all created when every identity call succeeds. */
  lemma {:induction false} EnsureUsersSucceed(store: Store, us: seq<SeedUser>, ids: string -> string, outcomes: string -> EnsureOutcomes)
    requires DistinctKeys(us)
    requires forall i :: 0 <= i < |us| ==> NormalizeKey(us[i].email) !in store.users && us[i].role in store.roles
    requires forall i :: 0 <= i < |us| ==> outcomes(us[i].email).createOk && outcomes(us[i].email).addRoleNewOk
    ensures EnsureUsers(store, us, ids, outcomes).1.None?
    decreases |us|
  {
    if |us| > 0 {
      var s1 := EnsureUser(store, us[0], ids(us[0].email), outcomes(us[0].email)).0;
      assert forall i :: 1 <= i < |us| ==> us[i] == us[1..][i - 1];
      assert forall i :: 0 <= i < |us[1..]| ==> NormalizeKey(us[1..][i].email) !in s1.users;
      EnsureUsersSucceed(s1, us[1..], ids, outcomes);
    }
  }

  /** On a store without the three accounts, identity seeding succeeds when every call succeeds. */
  lemma SeedIdentitySucceeds(store: Store, createRoleOk: string -> bool, ids: string -> string, outcomes: string -> EnsureOutcomes)
    requires RolesCreatable(store, createRoleOk)
    requires forall i :: 0 <= i < |SeedUsers| ==> NormalizeKey(SeedUsers[i].email) !in store.users
    requires forall i :: 0 <= i < |SeedUsers| ==> outcomes(SeedUsers[i].email).createOk && outcomes(SeedUsers[i].email).addRoleNewOk
    ensures SeedIdentity(store, createRoleOk, ids, outcomes).1.None?
  {
    var s1 := SeedRoles(store, createRoleOk).0;
    assert forall i :: 0 <= i < |SeedUsers| ==> SeedUsers[i].role in s1.roles;
    SeedUserKeysDistinct();
    EnsureUsersSucceed(s1, SeedUsers, ids, outcomes);
  }

  /** The three accounts have distinct lookup keys. */
  lemma SeedUserKeysDistinct()
    ensures DistinctKeys(SeedUsers)
  {
    assert |NormalizeKey(SeedUsers[0].email)| == 15;
    assert |NormalizeKey(SeedUsers[1].email)| == 17;
    assert |NormalizeKey(SeedUsers[2].email)| == 14;
  }

  /** Seeding identities a second time after a success changes nothing and succeeds. */
  lemma SeedIdentityIdempotent(store: Store, createRoleOk: string -> bool, ids: string -> string, outcomes: string -> EnsureOutcomes,
                               createRoleOk2: string -> bool, ids2: string -> string, outcomes2: string -> EnsureOutcomes)
    requires SeedIdentity(store, createRoleOk, ids, outcomes).1.None?
    ensures var s := SeedIdentity(store, createRoleOk, ids, outcomes).0;
      SeedIdentity(s, createRoleOk2, ids2, outcomes2) == (s, None)
  {
    var s := SeedIdentity(store, createRoleOk, ids, outcomes).0;
    SeedIdentityOnSeeded(s, createRoleOk2, ids2, outcomes2);
  }

  /** With the roles present and every account seeded, identity seeding changes nothing and succeeds. */
  lemma SeedIdentityOnSeeded(s: Store, createRoleOk: string -> bool, ids: string -> string, outcomes: string -> EnsureOutcomes)
    requires {"User", "Business", "Admin"} <= s.roles
    requires forall i :: 0 <= i < |SeedUsers| ==> Seeded(s, SeedUsers[i])
    ensures SeedIdentity(s, createRoleOk, ids, outcomes) == (s, None)
  {
    SeedRolesPresent(s, createRoleOk);
    EnsureUsersNoop(s, SeedUsers, ids, outcomes);
  }

  /** With the roles present, seeding them returns the store as it is. */
  lemma SeedRolesPresent(s: Store, createOk: string -> bool)
    requires {"User", "Business", "Admin"} <= s.roles
    ensures SeedRoles(s, createOk) == (s, None)
  {
    assert RolesCreatable(s, createOk);
    assert s.roles + {"User", "Business", "Admin"} == s.roles;
    assert SeedRoles(s, createOk).0 == s;
  }
}
