/**
 * Which tile a module is, and that a boot does not change the answer for the others (apps/api/src/seed-navigation.ts,
 * lines 1342-1360).
 */
module NavigationViews {
  import opened Options
  import opened Sequences
  import opened NavigationOrders
  import opened NavigationSpec

  // ---------------------------------------------------------------- at most one holder

  lemma {:induction false} TwoCounts(held: seq<Id>, a: Id, b: Id)
    requires a != b
    ensures multiset(held)[a] + multiset(held)[b] <= |held|
  {
    if held != [] {
      var n := |held| - 1;
      TwoCounts(held[..n], a, b);
      assert held == held[..n] + [held[n]];
    }
  }

  /** At most one group holds more than half. */
  lemma {:induction false} OneMajority(held: seq<Id>, a: Id, b: Id)
    requires IsMajority(held, a) && IsMajority(held, b)
    ensures a == b
  {
    if a != b {
      TwoCounts(held, a, b);
    }
  }

  lemma {:induction false} FirstMajorityIff(order: seq<Id>, held: seq<Id>, id: Id)
    ensures FirstMajority(order, held) == Some(id) ==> id in order && IsMajority(held, id)
    ensures id in order && IsMajority(held, id) ==> FirstMajority(order, held) == Some(id)
  {
    if order != [] {
      FirstMajorityIff(order[1..], held, id);
      if id in order && IsMajority(held, id) && IsMajority(held, order[0]) {
        OneMajority(held, id, order[0]);
      }
    }
  }

  /** The holder is the group with the majority, whatever order the pages are read in. */
  lemma {:induction false} HolderIff(defs: seq<AppDef>, apps: map<string, AppRow>, id: Id)
    ensures Holder(defs, apps) == Some(id) <==> IsMajority(HeldBy(defs, apps), id)
  {
    var held := HeldBy(defs, apps);
    KeysOfMember(held, Itself);
    FirstMajorityIff(KeysOf(held, Itself), held, id);
    if IsMajority(held, id) {
      assert id in multiset(held);
      assert Itself(id) in KeysOf(held, Itself);
    }
  }

  // ---------------------------------------------------------------- stores

  ghost predicate WellFormed(s: Store) {
    && (forall i, j :: 0 <= i < j < |s.tiles| ==> s.tiles[i].id != s.tiles[j].id)
    && (forall i :: 0 <= i < |s.tiles| ==> s.tiles[i].id < s.nextId)
    && (forall r :: r in s.apps ==> s.apps[r].categoryId < s.nextId)
  }

  /** `t` holds the tiles of `s`, renamed by nobody, with revisions that only grew. */
  ghost predicate Later(s: Store, t: Store) {
    && |s.tiles| <= |t.tiles|
    && (forall i :: 0 <= i < |s.tiles| ==> Matured(s.tiles[i], t.tiles[i]))
  }

  predicate Matured(a: Tile, b: Tile) {
    a.id == b.id && a.en == b.en && a.iconRevision <= b.iconRevision && a.retiredRevision <= b.retiredRevision
  }

  lemma {:induction false} LaterTrans(s: Store, t: Store, u: Store)
    requires Later(s, t) && Later(t, u)
    ensures Later(s, u)
  {
  }

  /** The applications keep their place: rows stay, in their group, with their order. */
  ghost predicate RowsStay(a: map<string, AppRow>, b: map<string, AppRow>) {
    forall r :: r in a ==> r in b && b[r].categoryId == a[r].categoryId && b[r].sortOrder == a[r].sortOrder
  }

  /** The tiles that are new in `t`. */
  ghost predicate NewTilesNamed(s: Store, t: Store, en: string) {
    forall i :: |s.tiles| <= i < |t.tiles| ==> t.tiles[i].en == en && t.tiles[i].id >= s.nextId
  }

  lemma {:induction false} TileAt(tiles: seq<Tile>, i: nat)
    requires i < |tiles| && forall j, k :: 0 <= j < k < |tiles| ==> tiles[j].id != tiles[k].id
    ensures TileWithId(tiles, tiles[i].id) == Some(tiles[i])
  {
    if i > 0 {
      TileAt(tiles[1..], i - 1);
    }
  }

  lemma {:induction false} TileWithIdIs(tiles: seq<Tile>, id: Id)
    ensures TileWithId(tiles, id).Some? ==>
              exists i :: 0 <= i < |tiles| && tiles[i] == TileWithId(tiles, id).value && tiles[i].id == id
    ensures TileWithId(tiles, id).None? ==> forall i :: 0 <= i < |tiles| ==> tiles[i].id != id
  {
    if tiles != [] && tiles[0].id != id {
      TileWithIdIs(tiles[1..], id);
      if TileWithId(tiles, id).Some? {
        var i :| 0 <= i < |tiles[1..]| && tiles[1..][i] == TileWithId(tiles, id).value && tiles[1..][i].id == id;
        assert tiles[i + 1] == tiles[1..][i];
      } else {
        assert forall i :: 1 <= i < |tiles| ==> tiles[i] == tiles[1..][i - 1];
      }
    }
  }

  lemma {:induction false} TileNamedIs(tiles: seq<Tile>, en: string)
    ensures TileNamed(tiles, en).Some? ==>
              exists i :: 0 <= i < |tiles| && tiles[i] == TileNamed(tiles, en).value && tiles[i].en == en
    ensures TileNamed(tiles, en).None? ==> forall i :: 0 <= i < |tiles| ==> tiles[i].en != en
  {
    if tiles != [] && tiles[0].en != en {
      TileNamedIs(tiles[1..], en);
      if TileNamed(tiles, en).Some? {
        var i :| 0 <= i < |tiles[1..]| && tiles[1..][i] == TileNamed(tiles, en).value && tiles[1..][i].en == en;
        assert tiles[i + 1] == tiles[1..][i];
      } else {
        assert forall i :: 1 <= i < |tiles| ==> tiles[i] == tiles[1..][i - 1];
      }
    }
  }

  // ---------------------------------------------------------------- the same tile, looked up later

  /** The two answers are one tile. */
  predicate SameTile(a: Option<Tile>, b: Option<Tile>) {
    a.Some? == b.Some? && (a.Some? ==> Matured(a.value, b.value))
  }

  lemma {:induction false} NamedLater(a: seq<Tile>, b: seq<Tile>, en: string, other: string)
    requires |a| <= |b| && (forall i :: 0 <= i < |a| ==> Matured(a[i], b[i])) && en != other
    requires forall i :: |a| <= i < |b| ==> b[i].en == other
    ensures SameTile(TileNamed(a, en), TileNamed(b, en))
  {
    if a == [] {
      TileNamedIs(b, en);
    } else {
      assert forall i :: 0 <= i < |a[1..]| ==> a[1..][i] == a[i + 1] && b[1..][i] == b[i + 1];
      NamedLater(a[1..], b[1..], en, other);
    }
  }

  lemma {:induction false} WithIdLater(a: seq<Tile>, b: seq<Tile>, id: Id, limit: Id)
    requires |a| <= |b| && (forall i :: 0 <= i < |a| ==> Matured(a[i], b[i])) && id < limit
    requires forall i :: |a| <= i < |b| ==> b[i].id >= limit
    ensures SameTile(TileWithId(a, id), TileWithId(b, id))
  {
    if a == [] {
      TileWithIdIs(b, id);
    } else {
      assert forall i :: 0 <= i < |a[1..]| ==> a[1..][i] == a[i + 1] && b[1..][i] == b[i + 1];
      WithIdLater(a[1..], b[1..], id, limit);
    }
  }

  /** None of the module's missing pages appeared. */
  ghost predicate PagesAlike(defs: seq<AppDef>, a: map<string, AppRow>, b: map<string, AppRow>) {
    forall i :: 0 <= i < |defs| ==> (defs[i].route in a <==> defs[i].route in b)
  }

  lemma {:induction false} HeldAlike(defs: seq<AppDef>, a: map<string, AppRow>, b: map<string, AppRow>)
    requires RowsStay(a, b) && PagesAlike(defs, a, b)
    ensures HeldBy(defs, a) == HeldBy(defs, b)
  {
    if defs != [] {
      var n := |defs| - 1;
      assert forall i :: 0 <= i < n ==> defs[..n][i] == defs[i];
      HeldAlike(defs[..n], a, b);
      assert defs[n].route in a <==> defs[n].route in b;
    }
  }

  lemma {:induction false} HolderKnown(defs: seq<AppDef>, s: Store)
    requires WellFormed(s) && Holder(defs, s.apps).Some?
    ensures Holder(defs, s.apps).value < s.nextId
  {
    var id := Holder(defs, s.apps).value;
    HolderIff(defs, s.apps, id);
    assert id in HeldBy(defs, s.apps);
    HeldKnown(defs, s, id);
  }

  lemma {:induction false} HeldKnown(defs: seq<AppDef>, s: Store, id: Id)
    requires WellFormed(s) && id in HeldBy(defs, s.apps)
    ensures id < s.nextId
  {
    var n := |defs| - 1;
    if id in HeldBy(defs[..n], s.apps) {
      HeldKnown(defs[..n], s, id);
    }
  }

  /** What another module's turn leaves a module with: the tile it was. */
  lemma {:induction false} ViewStays(catalog: seq<CategoryDef>, s: Store, t: Store, def: CategoryDef, other: string)
    requires WellFormed(s) && Later(s, t) && RowsStay(s.apps, t.apps) && PagesAlike(def.apps, s.apps, t.apps)
    requires NewTilesNamed(s, t, other) && def.en != other
    ensures SameTile(Resolve(catalog, s, def), Resolve(catalog, t, def))
  {
    hide TileNamed, TileWithId, HeldBy, Holder, AnotherModules;
    NamedLater(s.tiles, t.tiles, def.en, other);
    SameHolder(s, t, def);
    if Holder(def.apps, s.apps).Some? {
      HolderKnown(def.apps, s);
      WithIdLater(s.tiles, t.tiles, Holder(def.apps, s.apps).value, s.nextId);
    }
  }

  lemma {:induction false} SameHolder(s: Store, t: Store, def: CategoryDef)
    requires RowsStay(s.apps, t.apps) && PagesAlike(def.apps, s.apps, t.apps)
    ensures Holder(def.apps, s.apps) == Holder(def.apps, t.apps)
  {
    HeldAlike(def.apps, s.apps, t.apps);
  }

  lemma {:induction false} ResolvesToTile(catalog: seq<CategoryDef>, s: Store, def: CategoryDef)
    requires Resolve(catalog, s, def).Some?
    ensures exists i :: 0 <= i < |s.tiles| && s.tiles[i] == Resolve(catalog, s, def).value
  {
    hide Holder, AnotherModules;
    TileNamedIs(s.tiles, def.en);
    if TileNamed(s.tiles, def.en).None? {
      TileWithIdIs(s.tiles, Holder(def.apps, s.apps).value);
    }
  }
}

/** What a module's turn of the boot may do (apps/api/src/seed-navigation.ts, lines 1325-1418 and 1549-1597). */
module NavigationTurns {
  import opened Options
  import opened Sequences
  import opened NavigationOrders
  import opened NavigationSpec
  import opened NavigationViews

  predicate IsPage(def: CategoryDef, route: string) {
    exists i :: 0 <= i < |def.apps| && def.apps[i].route == route
  }

  /** Tiles keep their names and grow their revisions, stored rows keep their place, and what is new is the module's. */
  ghost predicate Turn(s: Store, t: Store, def: CategoryDef) {
    && WellFormed(t) && Later(s, t) && RowsStay(s.apps, t.apps) && NewTilesNamed(s, t, def.en) && s.nextId <= t.nextId
    && (forall r :: r in t.apps ==> r in s.apps || IsPage(def, r))
  }

  lemma {:induction false} TurnTrans(s: Store, t: Store, u: Store, def: CategoryDef)
    requires Turn(s, t, def) && Turn(t, u, def)
    ensures Turn(s, u, def)
  {
    hide WellFormed, IsPage;
    LaterTrans(s, t, u);
    forall i | |s.tiles| <= i < |u.tiles| ensures u.tiles[i].en == def.en && u.tiles[i].id >= s.nextId {
      if i < |t.tiles| {
        assert Matured(t.tiles[i], u.tiles[i]);
      }
    }
  }

  lemma {:induction false} NoTurn(s: Store, def: CategoryDef)
    requires WellFormed(s)
    ensures Turn(s, s, def)
  {
  }

  /** One tile rewritten, with revisions that do not go back. */
  lemma {:induction false} RewriteTurn(
    s: Store, def: CategoryDef, i: nat, icon: Option<string>, iconRevision: nat, retiredRevision: nat,
    apps: map<string, AppRow>)
    requires WellFormed(s) && i < |s.tiles| && s.tiles[i].iconRevision <= iconRevision
    requires s.tiles[i].retiredRevision <= retiredRevision
    requires RowsStay(s.apps, apps) && apps.Keys == s.apps.Keys
    ensures Turn(s, s.(tiles := Rewrite(s.tiles, s.tiles[i].id, icon, iconRevision, retiredRevision), apps := apps),
            def)
  {
    hide IsPage;
    var t := s.(tiles := Rewrite(s.tiles, s.tiles[i].id, icon, iconRevision, retiredRevision), apps := apps);
    assert Later(s, t);
    assert WellFormed(t);
  }

  lemma {:induction false} BackfillTurn(s: Store, def: CategoryDef)
    requires WellFormed(s)
    ensures Turn(s, BackfillIcon(s, def), def)
  {
    hide Turn, WellFormed;
    NoTurn(s, def);
    TileNamedIs(s.tiles, def.en);
    var t := TileNamed(s.tiles, def.en);
    if t.Some? && t.value.icon.None? {
      var i :| 0 <= i < |s.tiles| && s.tiles[i] == t.value;
      RewriteTurn(s, def, i, Some(def.icon), t.value.iconRevision, t.value.retiredRevision, s.apps);
    }
  }

  lemma {:induction false} CorrectTurn(catalog: seq<CategoryDef>, s: Store, def: CategoryDef)
    requires WellFormed(s)
    ensures Turn(s, CorrectIcon(catalog, s, def), def)
  {
    hide Turn, WellFormed, Resolve;
    NoTurn(s, def);
    var t := Resolve(catalog, s, def);
    if def.iconRevision.Some? && t.Some? && t.value.iconRevision < def.iconRevision.value {
      ResolvesToTile(catalog, s, def);
      var i :| 0 <= i < |s.tiles| && s.tiles[i] == t.value;
      RewriteTurn(s, def, i, Some(def.icon), def.iconRevision.value, t.value.retiredRevision, s.apps);
    }
  }

  /** Switching off changes the status of the named rows only. */
  lemma {:induction false} SwitchOffStays(apps: map<string, AppRow>, routes: seq<string>)
    ensures RowsStay(apps, SwitchOff(apps, routes)) && SwitchOff(apps, routes).Keys == apps.Keys
    ensures forall r :: r in apps && r !in routes ==> SwitchOff(apps, routes)[r] == apps[r]
  {
    if routes != [] {
      SwitchOffStays(apps, routes[..|routes| - 1]);
    }
  }

  predicate Retires(retired: seq<Retirement>, route: string) {
    exists i :: 0 <= i < |retired| && route in retired[i].routes
  }

  lemma {:induction false} SwitchOffSinceStays(apps: map<string, AppRow>, retired: seq<Retirement>, done: nat)
    ensures RowsStay(apps, SwitchOffSince(apps, retired, done)) && SwitchOffSince(apps, retired, done).Keys == apps.Keys
    ensures forall r :: r in apps && !Retires(retired, r) ==> SwitchOffSince(apps, retired, done)[r] == apps[r]
  {
    hide SwitchOff;
    if retired != [] {
      var n := |retired| - 1;
      SwitchOffSinceStays(apps, retired[..n], done);
      SwitchOffStays(SwitchOffSince(apps, retired[..n], done), retired[n].routes);
      assert forall i :: 0 <= i < n ==> retired[..n][i] == retired[i];
      assert forall r :: Retires(retired[..n], r) || r in retired[n].routes ==> Retires(retired, r);
    }
  }

  lemma {:induction false} RetireTurn(catalog: seq<CategoryDef>, s: Store, def: CategoryDef)
    requires WellFormed(s)
    ensures Turn(s, Retire(catalog, s, def), def)
  {
    hide Turn, WellFormed, Resolve, SwitchOffSince;
    NoTurn(s, def);
    var latest, t := Latest(def.retired), Resolve(catalog, s, def);
    if latest > 0 && t.Some? && t.value.retiredRevision < latest {
      ResolvesToTile(catalog, s, def);
      var i :| 0 <= i < |s.tiles| && s.tiles[i] == t.value;
      var apps := SwitchOffSince(s.apps, def.retired, t.value.retiredRevision);
      SwitchOffSinceStays(s.apps, def.retired, t.value.retiredRevision);
      RewriteTurn(s, def, i, t.value.icon, t.value.iconRevision, latest, apps);
    }
  }

  /** Repairs touch the icon and the key of a row, never where it stands or whether it is on. */
  lemma {:induction false} RepairStays(apps: map<string, AppRow>, defs: seq<AppDef>)
    ensures RowsStay(apps, RepairAll(apps, defs)) && RepairAll(apps, defs).Keys == apps.Keys
    ensures forall r :: r in apps ==> RepairAll(apps, defs)[r].active == apps[r].active
  {
    if defs != [] {
      RepairStays(apps, defs[..|defs| - 1]);
    }
  }

  lemma {:induction false} RepairTurn(s: Store, def: CategoryDef)
    requires WellFormed(s)
    ensures Turn(s, s.(apps := RepairAll(s.apps, def.apps)), def)
  {
    hide RepairAll, IsPage;
    RepairStays(s.apps, def.apps);
  }

  lemma {:induction false} AddedKeeps(defs: seq<AppDef>, apps: map<string, AppRow>, id: Id, n: nat, r: string)
    requires n <= |defs| && r in apps
    ensures r in Added(defs, apps, id, n) && Added(defs, apps, id, n)[r] == apps[r]
  {
    hide OrderAt;
    if n > 0 {
      AddedKeeps(defs, apps, id, n - 1, r);
    }
  }

  lemma {:induction false} AddedOnly(defs: seq<AppDef>, apps: map<string, AppRow>, id: Id, n: nat, r: string)
    requires n <= |defs| && r in Added(defs, apps, id, n) && r !in apps
    ensures Added(defs, apps, id, n)[r].categoryId == id && Added(defs, apps, id, n)[r].active
    ensures exists i :: 0 <= i < n && defs[i].route == r
  {
    hide OrderAt, StoredOrders;
    if r != defs[n - 1].route {
      AddedOnly(defs, apps, id, n - 1, r);
    }
  }

  lemma {:induction false} AddedAll(defs: seq<AppDef>, apps: map<string, AppRow>, id: Id, n: nat, i: nat)
    requires i < n <= |defs|
    ensures defs[i].route in Added(defs, apps, id, n)
  {
    hide OrderAt, StoredOrders;
    if defs[n - 1].route in apps {
      AddedKeeps(defs, apps, id, n, defs[n - 1].route);
    }
    if i < n - 1 {
      AddedAll(defs, apps, id, n - 1, i);
    }
  }

  lemma {:induction false} AddedStays(defs: seq<AppDef>, apps: map<string, AppRow>, id: Id)
    ensures var b := Added(defs, apps, id, |defs|);
            && (forall r :: r in apps ==> r in b && b[r] == apps[r])
            && (forall r :: r in b && r !in apps ==>
              b[r].categoryId == id && b[r].active && exists i :: 0 <= i < |defs| && defs[i].route == r)
            && (forall i :: 0 <= i < |defs| ==> defs[i].route in b)
  {
    hide Added;
    var b := Added(defs, apps, id, |defs|);
    forall r | r in apps ensures r in b && b[r] == apps[r] {
      AddedKeeps(defs, apps, id, |defs|, r);
    }
    forall r | r in b && r !in apps
      ensures b[r].categoryId == id && b[r].active && exists i :: 0 <= i < |defs| && defs[i].route == r
    {
      AddedOnly(defs, apps, id, |defs|, r);
    }
    forall i | 0 <= i < |defs| ensures defs[i].route in b {
      AddedAll(defs, apps, id, |defs|, i);
    }
  }

  lemma {:induction false} PlaceTurn(s: Store, def: CategoryDef)
    requires WellFormed(s)
    ensures Turn(s, Place(s, def), def)
    ensures forall r :: r in s.apps ==> r in Place(s, def).apps && Place(s, def).apps[r] == s.apps[r]
    ensures forall i :: 0 <= i < |def.apps| ==> def.apps[i].route in Place(s, def).apps
  {
    hide Added, TileNamed;
    if def.apps != [] {
      var first := def.apps[0].route;
      if first in s.apps {
        AddedStays(def.apps, s.apps, s.apps[first].categoryId);
      } else {
        var (t, id) := EnsureCategory(s, def);
        TileNamedIs(s.tiles, def.en);
        AddedStays(def.apps, s.apps, id);
      }
      assert forall r :: r in Place(s, def).apps && r !in s.apps ==> IsPage(def, r);
    }
  }

  lemma {:induction false} ModuleTurn(catalog: seq<CategoryDef>, s: Store, def: CategoryDef)
    requires WellFormed(s)
    ensures Turn(s, SyncModule(catalog, s, def), def)
  {
    hide BackfillIcon, CorrectIcon, Retire, RepairAll, Place, IsPage, Later, NewTilesNamed, RowsStay, WellFormed;
    var a := BackfillIcon(s, def);
    var b := CorrectIcon(catalog, a, def);
    var c := Retire(catalog, b, def);
    var d := c.(apps := RepairAll(c.apps, def.apps));
    BackfillTurn(s, def);
    CorrectTurn(catalog, a, def);
    TurnTrans(s, a, b, def);
    RetireTurn(catalog, b, def);
    TurnTrans(s, b, c, def);
    RepairTurn(c, def);
    TurnTrans(s, c, d, def);
    PlaceTurn(d, def);
    TurnTrans(s, d, Place(d, def), def);
  }

  // ---------------------------------------------------------------- the whole boot

  /** Modules have names and pages of their own. */
  ghost predicate OwnPages(catalog: seq<CategoryDef>) {
    && (forall m, n :: 0 <= m < n < |catalog| ==> catalog[m].en != catalog[n].en)
    && (forall m, n, i, j :: 0 <= m < n < |catalog| && 0 <= i < |catalog[m].apps| && 0 <= j < |catalog[n].apps| ==>
          catalog[m].apps[i].route != catalog[n].apps[j].route)
  }

  lemma {:induction false} NotItsPage(catalog: seq<CategoryDef>, m: nat, n: nat, i: nat)
    requires OwnPages(catalog) && m < |catalog| && n < |catalog| && m != n && i < |catalog[n].apps|
    ensures !IsPage(catalog[m], catalog[n].apps[i].route) && catalog[m].en != catalog[n].en
  {
  }

  ghost predicate StoreLater(s: Store, t: Store) {
    WellFormed(t) && Later(s, t) && RowsStay(s.apps, t.apps)
  }

  lemma {:induction false} BootLater(catalog: seq<CategoryDef>, s: Store, n: nat)
    requires WellFormed(s) && n <= |catalog|
    ensures StoreLater(s, SyncFirst(catalog, s, n))
  {
    hide SyncModule, WellFormed;
    if n > 0 {
      BootLater(catalog, s, n - 1);
      var t := SyncFirst(catalog, s, n - 1);
      ModuleTurn(catalog, t, catalog[n - 1]);
      LaterTrans(s, t, SyncFirst(catalog, s, n));
    }
  }

  /** Recorded revisions never decrease, and no stored row is moved or renumbered. */
  lemma {:induction false} RevisionsNeverDecrease(catalog: seq<CategoryDef>, s: Store)
    requires WellFormed(s)
    ensures WellFormed(Sync(catalog, s)) && Later(s, Sync(catalog, s)) && RowsStay(s.apps, Sync(catalog, s).apps)
  {
    hide SyncFirst, WellFormed, Later, RowsStay;
    BootLater(catalog, s, |catalog|);
  }

  /** Until its turn comes a module is the tile it was when the boot began, and its pages are those that were stored. */
  lemma {:induction false} UntilItsTurn(catalog: seq<CategoryDef>, s: Store, m: nat, n: nat)
    requires WellFormed(s) && OwnPages(catalog) && m <= n < |catalog|
    ensures var t := SyncFirst(catalog, s, m);
            SameTile(Resolve(catalog, s, catalog[n]), Resolve(catalog, t, catalog[n])) &&
              PagesAlike(catalog[n].apps, s.apps, t.apps)
  {
    hide SyncModule, WellFormed, Resolve, IsPage, OwnPages;
    var def := catalog[n];
    if m > 0 {
      UntilItsTurn(catalog, s, m - 1, n);
      var t, u := SyncFirst(catalog, s, m - 1), SyncFirst(catalog, s, m);
      BootLater(catalog, s, m - 1);
      ModuleTurn(catalog, t, catalog[m - 1]);
      forall i | 0 <= i < |def.apps| ensures def.apps[i].route in t.apps <==> def.apps[i].route in u.apps {
        NotItsPage(catalog, m - 1, n, i);
      }
      OwnName(catalog, m - 1, n);
      ViewStays(catalog, t, u, def, catalog[m - 1].en);
    } else {
      SameTileItself(Resolve(catalog, s, def));
    }
  }

  lemma {:induction false} OwnName(catalog: seq<CategoryDef>, m: nat, n: nat)
    requires OwnPages(catalog) && m < n < |catalog|
    ensures catalog[m].en != catalog[n].en
  {
  }

  lemma {:induction false} SameTileItself(t: Option<Tile>)
    ensures SameTile(t, t)
  {
  }
}

/**
 * What holds over boots, and over boots and administrators' edits in any order (apps/api/src/seed-navigation.ts, lines
 * 1325-1418 and 1519-1597).
 */
module NavigationTheorems {
  import opened Options
  import opened Sequences
  import opened NavigationOrders
  import opened NavigationSpec
  import opened NavigationViews
  import opened NavigationTurns

  // ---------------------------------------------------------------- the order of a module's pages

  ghost predicate DistinctPages(def: CategoryDef) {
    forall i, j :: 0 <= i < j < |def.apps| ==> def.apps[i].route != def.apps[j].route
  }

  lemma {:induction false} AddedOrder(defs: seq<AppDef>, apps: map<string, AppRow>, id: Id, n: nat, i: nat)
    requires i < n <= |defs| && forall j, k :: 0 <= j < k < |defs| ==> defs[j].route != defs[k].route
    ensures defs[i].route in Added(defs, apps, id, n)
    ensures Added(defs, apps, id, n)[defs[i].route].sortOrder == OrderAt(StoredOrders(defs, apps), i)
  {
    hide NextStored, High;
    if defs[i].route in apps {
      AddedKeeps(defs, apps, id, n, defs[i].route);
    } else if i < n - 1 {
      AddedOrder(defs, apps, id, n - 1, i);
    }
  }

  /** Orders are read from rows that stay. */
  lemma {:induction false} SameOrders(defs: seq<AppDef>, a: map<string, AppRow>, b: map<string, AppRow>)
    requires RowsStay(a, b) && PagesAlike(defs, a, b)
    ensures StoredOrders(defs, a) == StoredOrders(defs, b)
  {
    forall i | 0 <= i < |defs| ensures StoredOrders(defs, a)[i] == StoredOrders(defs, b)[i] {
      assert defs[i].route in a <==> defs[i].route in b;
    }
  }

  lemma {:induction false} PlaceOrders(s: Store, def: CategoryDef, i: nat)
    requires WellFormed(s) && DistinctPages(def) && i < |def.apps|
    ensures def.apps[i].route in Place(s, def).apps
    ensures Place(s, def).apps[def.apps[i].route].sortOrder == OrderAt(StoredOrders(def.apps, s.apps), i)
  {
    hide Added, OrderAt, EnsureCategory;
    var first := def.apps[0].route;
    AddedOrder(def.apps, s.apps, if first in s.apps then s.apps[first].categoryId else EnsureCategory(s, def).1,
      |def.apps|, i);
  }

  /** Before its pages are placed, a module's turn has not touched which are stored, nor their orders. */
  lemma {:induction false} BeforePlacing(catalog: seq<CategoryDef>, s: Store, def: CategoryDef)
    requires WellFormed(s)
    ensures var icons := CorrectIcon(catalog, BackfillIcon(s, def), def);
            var retired := Retire(catalog, icons, def);
            var t := retired.(apps := RepairAll(retired.apps, def.apps));
            && SyncModule(catalog, s, def) == Place(t, def) && WellFormed(t) && |t.tiles| == |s.tiles|
            && t.apps.Keys == s.apps.Keys && RowsStay(s.apps, t.apps) && Later(s, t) && s.nextId <= t.nextId
  {
    hide Resolve, SwitchOffSince, RepairAll, Place, WellFormed;
    var a := BackfillIcon(s, def);
    var b := CorrectIcon(catalog, a, def);
    var c := Retire(catalog, b, def);
    BackfillTurn(s, def);
    CorrectTurn(catalog, a, def);
    RetireTurn(catalog, b, def);
    RepairTurn(c, def);
    RepairStays(c.apps, def.apps);
    var t := Resolve(catalog, b, def);
    if t.Some? {
      SwitchOffSinceStays(b.apps, def.retired, t.value.retiredRevision);
    }
  }

  lemma {:induction false} ModuleOrders(catalog: seq<CategoryDef>, s: Store, def: CategoryDef, i: nat)
    requires WellFormed(s) && DistinctPages(def) && i < |def.apps|
    ensures def.apps[i].route in SyncModule(catalog, s, def).apps
    ensures SyncModule(catalog, s, def).apps[def.apps[i].route].sortOrder == OrderAt(StoredOrders(def.apps, s.apps), i)
  {
    hide BackfillIcon, CorrectIcon, Retire, RepairAll, Place, SyncModule, WellFormed, OrderAt, StoredOrders, RowsStay;
    var retired := Retire(catalog, CorrectIcon(catalog, BackfillIcon(s, def), def), def);
    var t := retired.(apps := RepairAll(retired.apps, def.apps));
    BeforePlacing(catalog, s, def);
    SameOrders(def.apps, s.apps, t.apps);
    PlaceOrders(t, def, i);
  }

  /** After a boot every page of a module stands at the order its module's stored pages gave it. */
  lemma {:induction false} BootOrders(catalog: seq<CategoryDef>, s: Store, m: nat, n: nat, i: nat)
    requires WellFormed(s) && OwnPages(catalog) && n < m <= |catalog| && DistinctPages(catalog[n])
    requires i < |catalog[n].apps|
    ensures var route, apps := catalog[n].apps[i].route, SyncFirst(catalog, s, m).apps;
            route in apps && apps[route].sortOrder == OrderAt(StoredOrders(catalog[n].apps, s.apps), i)
  {
    hide SyncModule, WellFormed, OwnPages, OrderAt, StoredOrders, Resolve, IsPage;
    var def := catalog[n];
    var t := SyncFirst(catalog, s, m - 1);
    BootLater(catalog, s, m - 1);
    ModuleTurn(catalog, t, catalog[m - 1]);
    if n == m - 1 {
      UntilItsTurn(catalog, s, n, n);
      SameOrders(def.apps, s.apps, t.apps);
      ModuleOrders(catalog, t, def, i);
    } else {
      BootOrders(catalog, s, m - 1, n, i);
    }
  }

  /** The stored pages are in order, and above -10 if the first page is new. */
  ghost predicate Placeable(stored: seq<Option<real>>)
    requires stored != []
  {
    StoredIncrease(stored) && (stored[0].Some? || StoredAbove(stored, BEFORE_FIRST))
  }

  /** The module's pages stand in catalog order. */
  ghost predicate InCatalogOrder(def: CategoryDef, apps: map<string, AppRow>) {
    && (forall i :: 0 <= i < |def.apps| ==> def.apps[i].route in apps)
    && (forall i, j :: 0 <= i < j < |def.apps| ==>
      apps[def.apps[i].route].sortOrder < apps[def.apps[j].route].sortOrder)
  }

  /**
   * After a boot a module is in catalog order exactly when its stored pages were, above -10 if its first page is new.
   */
  lemma {:induction false} BootInOrderIff(catalog: seq<CategoryDef>, s: Store, n: nat)
    requires WellFormed(s) && OwnPages(catalog) && n < |catalog| && DistinctPages(catalog[n]) && catalog[n].apps != []
    ensures var stored := StoredOrders(catalog[n].apps, s.apps);
            InCatalogOrder(catalog[n], Sync(catalog, s).apps) <==> Placeable(stored)
  {
    hide SyncFirst, WellFormed, OwnPages, OrderAt, StoredOrders, StoredIncrease, StoredAbove;
    var def, apps := catalog[n], Sync(catalog, s).apps;
    var stored := StoredOrders(def.apps, s.apps);
    forall i | 0 <= i < |def.apps|
      ensures def.apps[i].route in apps && apps[def.apps[i].route].sortOrder == OrderAt(stored, i)
    {
      BootOrders(catalog, s, |catalog|, n, i);
    }
    OrdersIncreaseIff(stored);
    assert InCatalogOrder(def, apps) <==> OrdersIncrease(stored) by {
      if InCatalogOrder(def, apps) {
        forall i, j | 0 <= i < j < |stored| ensures OrderAt(stored, i) < OrderAt(stored, j) {
          assert apps[def.apps[i].route].sortOrder < apps[def.apps[j].route].sortOrder;
        }
      }
    }
  }

  // ---------------------------------------------------------------- a second boot

  ghost predicate AllStored(catalog: seq<CategoryDef>, s: Store, n: nat)
    requires n <= |catalog|
  {
    forall m, i :: 0 <= m < n && 0 <= i < |catalog[m].apps| ==> catalog[m].apps[i].route in s.apps
  }

  lemma {:induction false} BootStoresAll(catalog: seq<CategoryDef>, s: Store, n: nat)
    requires WellFormed(s) && n <= |catalog|
    ensures AllStored(catalog, SyncFirst(catalog, s, n), n)
  {
    hide SyncModule, WellFormed, IsPage;
    if n > 0 {
      BootStoresAll(catalog, s, n - 1);
      var t, def := SyncFirst(catalog, s, n - 1), catalog[n - 1];
      BootLater(catalog, s, n - 1);
      ModuleTurn(catalog, t, def);
      ModuleStoresAll(catalog, t, def);
    }
  }

  lemma {:induction false} ModuleStoresAll(catalog: seq<CategoryDef>, s: Store, def: CategoryDef)
    requires WellFormed(s)
    ensures forall i :: 0 <= i < |def.apps| ==> def.apps[i].route in SyncModule(catalog, s, def).apps
  {
    hide BackfillIcon, CorrectIcon, Retire, RepairAll, Place, SyncModule, WellFormed, RowsStay;
    var retired := Retire(catalog, CorrectIcon(catalog, BackfillIcon(s, def), def), def);
    BeforePlacing(catalog, s, def);
    PlaceTurn(retired.(apps := RepairAll(retired.apps, def.apps)), def);
  }

  lemma {:induction false} NothingToAdd(defs: seq<AppDef>, apps: map<string, AppRow>, id: Id, n: nat)
    requires n <= |defs| && forall i :: 0 <= i < |defs| ==> defs[i].route in apps
    ensures Added(defs, apps, id, n) == apps
  {
    if n > 0 {
      NothingToAdd(defs, apps, id, n - 1);
    }
  }

  lemma {:induction false} NothingNew(catalog: seq<CategoryDef>, s: Store, def: CategoryDef)
    requires WellFormed(s) && forall i :: 0 <= i < |def.apps| ==> def.apps[i].route in s.apps
    ensures SyncModule(catalog, s, def).apps.Keys == s.apps.Keys && |SyncModule(catalog, s, def).tiles| == |s.tiles|
  {
    hide BackfillIcon, CorrectIcon, Retire, RepairAll, SyncModule, WellFormed, RowsStay, Added;
    var retired := Retire(catalog, CorrectIcon(catalog, BackfillIcon(s, def), def), def);
    var t := retired.(apps := RepairAll(retired.apps, def.apps));
    BeforePlacing(catalog, s, def);
    if def.apps != [] {
      NothingToAdd(def.apps, t.apps, t.apps[def.apps[0].route].categoryId, |def.apps|);
    }
  }

  lemma {:induction false} BootAddsNothing(catalog: seq<CategoryDef>, s: Store, n: nat)
    requires WellFormed(s) && n <= |catalog| && AllStored(catalog, s, |catalog|)
    ensures SyncFirst(catalog, s, n).apps.Keys == s.apps.Keys && |SyncFirst(catalog, s, n).tiles| == |s.tiles|
  {
    hide SyncModule, WellFormed;
    if n > 0 {
      BootAddsNothing(catalog, s, n - 1);
      BootLater(catalog, s, n - 1);
      NothingNew(catalog, SyncFirst(catalog, s, n - 1), catalog[n - 1]);
    }
  }

  /** A second boot creates no page and no tile. */
  lemma {:induction false} SecondBootCreatesNothing(catalog: seq<CategoryDef>, s: Store)
    requires WellFormed(s)
    ensures var once := Sync(catalog, s);
            Sync(catalog, once).apps.Keys == once.apps.Keys && |Sync(catalog, once).tiles| == |once.tiles|
  {
    hide SyncFirst, WellFormed, AllStored;
    BootLater(catalog, s, |catalog|);
    BootStoresAll(catalog, s, |catalog|);
    BootAddsNothing(catalog, Sync(catalog, s), |catalog|);
  }

  // ---------------------------------------------------------------- the tiles a boot makes

  /** The module's first page is new and no tile has the module's name. */
  predicate MakesTile(s: Store, def: CategoryDef) {
    def.apps != [] && def.apps[0].route !in s.apps && TileNamed(s.tiles, def.en).None?
  }

  lemma {:induction false} NamedSame(a: seq<Tile>, b: seq<Tile>, en: string)
    requires |a| == |b| && forall i :: 0 <= i < |a| ==> Matured(a[i], b[i])
    ensures SameTile(TileNamed(a, en), TileNamed(b, en))
  {
    NamedLater(a, b, en, en + "!");
  }

  lemma {:induction false} ModuleOpens(catalog: seq<CategoryDef>, s: Store, def: CategoryDef)
    requires WellFormed(s)
    ensures var tiles := SyncModule(catalog, s, def).tiles;
            if MakesTile(s, def) then |tiles| == |s.tiles| + 1 && tiles[|s.tiles|].en == def.en
            else |tiles| == |s.tiles|
  {
    hide BackfillIcon, CorrectIcon, Retire, RepairAll, SyncModule, WellFormed, Added, RowsStay, TileNamed;
    var retired := Retire(catalog, CorrectIcon(catalog, BackfillIcon(s, def), def), def);
    var t := retired.(apps := RepairAll(retired.apps, def.apps));
    BeforePlacing(catalog, s, def);
    NamedSame(s.tiles, t.tiles, def.en);
  }

  /** The turn of another module neither makes nor renames the tile of this one's name. */
  lemma {:induction false} NamedThroughTurn(catalog: seq<CategoryDef>, s: Store, m: nat, n: nat)
    requires WellFormed(s) && OwnPages(catalog) && m < |catalog| && n < |catalog| && m != n
    ensures var t, en := SyncModule(catalog, s, catalog[m]), catalog[n].en;
            SameTile(TileNamed(s.tiles, en), TileNamed(t.tiles, en))
  {
    hide SyncModule, WellFormed, IsPage, RowsStay, TileNamed;
    ModuleTurn(catalog, s, catalog[m]);
    NamedLater(s.tiles, SyncModule(catalog, s, catalog[m]).tiles, catalog[n].en, catalog[m].en);
  }

  lemma {:induction false} NamedUntilItsTurn(catalog: seq<CategoryDef>, s: Store, m: nat, n: nat)
    requires WellFormed(s) && OwnPages(catalog) && m <= n < |catalog|
    ensures SameTile(TileNamed(s.tiles, catalog[n].en), TileNamed(SyncFirst(catalog, s, m).tiles, catalog[n].en))
  {
    hide SyncModule, WellFormed, OwnPages, TileNamed;
    if m > 0 {
      NamedUntilItsTurn(catalog, s, m - 1, n);
      BootLater(catalog, s, m - 1);
      NamedThroughTurn(catalog, SyncFirst(catalog, s, m - 1), m - 1, n);
    }
  }

  lemma {:induction false} MakesTileAtTurn(catalog: seq<CategoryDef>, s: Store, n: nat)
    requires WellFormed(s) && OwnPages(catalog) && n < |catalog|
    ensures MakesTile(SyncFirst(catalog, s, n), catalog[n]) <==> MakesTile(s, catalog[n])
  {
    hide SyncFirst, WellFormed, OwnPages, TileNamed, Resolve;
    UntilItsTurn(catalog, s, n, n);
    NamedUntilItsTurn(catalog, s, n, n);
  }

  /** The names of the modules that make a tile, in catalog order. */
  function NamesMade(catalog: seq<CategoryDef>, s: Store, n: nat): seq<string>
    requires n <= |catalog|
  {
    if n == 0 then []
    else
      var before := NamesMade(catalog, s, n - 1);
      if MakesTile(s, catalog[n - 1]) then before + [catalog[n - 1].en] else before
  }

  /** The tiles from index `from` on are named so. */
  predicate NamedFrom(tiles: seq<Tile>, from: nat, names: seq<string>) {
    |tiles| == from + |names| && forall k :: 0 <= k < |names| ==> tiles[from + k].en == names[k]
  }

  lemma {:induction false} FirstTurnsMake(catalog: seq<CategoryDef>, s: Store, n: nat)
    requires WellFormed(s) && OwnPages(catalog) && n <= |catalog|
    ensures NamedFrom(SyncFirst(catalog, s, n).tiles, |s.tiles|, NamesMade(catalog, s, n))
  {
    hide SyncModule, WellFormed, OwnPages, MakesTile, RowsStay, IsPage;
    if n > 0 {
      FirstTurnsMake(catalog, s, n - 1);
      var t, u := SyncFirst(catalog, s, n - 1), SyncFirst(catalog, s, n);
      BootLater(catalog, s, n - 1);
      MakesTileAtTurn(catalog, s, n - 1);
      ModuleOpens(catalog, t, catalog[n - 1]);
      ModuleTurn(catalog, t, catalog[n - 1]);
      assert forall k :: 0 <= k < |t.tiles| ==> Matured(t.tiles[k], u.tiles[k]);
    }
  }

  /**
   * A boot makes one tile for each module whose first page is new and whose name no tile has, in catalog order, and
   * no other tile.
   */
  lemma {:induction false} SeedTilesMade(catalog: seq<CategoryDef>, s: Store)
    requires WellFormed(s) && OwnPages(catalog)
    ensures NamedFrom(Sync(catalog, s).tiles, |s.tiles|, NamesMade(catalog, s, |catalog|))
  {
    FirstTurnsMake(catalog, s, |catalog|);
  }

  // ---------------------------------------------------------------- the group new pages join

  /** The group of a module's new pages: its first page's, or the tile of its own name. */
  ghost predicate GoesTo(s: Store, t: Store, def: CategoryDef, id: Id)
    requires def.apps != []
  {
    var named := TileNamed(t.tiles, def.en);
    if def.apps[0].route in s.apps then id == s.apps[def.apps[0].route].categoryId
    else named.Some? && id == named.value.id
  }

  lemma {:induction false} NamedAtEnd(tiles: seq<Tile>, tile: Tile)
    requires TileNamed(tiles, tile.en).None?
    ensures TileNamed(tiles + [tile], tile.en) == Some(tile)
  {
    if tiles != [] {
      assert (tiles + [tile])[1..] == tiles[1..] + [tile];
      NamedAtEnd(tiles[1..], tile);
    }
  }

  lemma {:induction false} PlaceGroup(s: Store, def: CategoryDef, j: nat)
    requires WellFormed(s) && j < |def.apps| && def.apps[j].route !in s.apps
    ensures var t := Place(s, def);
            def.apps[j].route in t.apps && GoesTo(s, t, def, t.apps[def.apps[j].route].categoryId)
  {
    hide Added, TileNamed;
    PlaceTurn(s, def);
    var first := def.apps[0].route;
    var (t, id) := EnsureCategory(s, def);
    var group := if first in s.apps then s.apps[first].categoryId else id;
    AddedOnly(def.apps, s.apps, group, |def.apps|, def.apps[j].route);
    if TileNamed(s.tiles, def.en).None? {
      NamedAtEnd(s.tiles, t.tiles[|s.tiles|]);
    }
  }

  lemma {:induction false} ModuleGroup(catalog: seq<CategoryDef>, s: Store, def: CategoryDef, j: nat)
    requires WellFormed(s) && j < |def.apps| && def.apps[j].route !in s.apps
    ensures var t := SyncModule(catalog, s, def);
            def.apps[j].route in t.apps && GoesTo(s, t, def, t.apps[def.apps[j].route].categoryId)
  {
    hide BackfillIcon, CorrectIcon, Retire, RepairAll, SyncModule, Place, WellFormed, TileNamed;
    var retired := Retire(catalog, CorrectIcon(catalog, BackfillIcon(s, def), def), def);
    var t := retired.(apps := RepairAll(retired.apps, def.apps));
    BeforePlacing(catalog, s, def);
    PlaceGroup(t, def, j);
  }

  lemma {:induction false} FirstTurnsGroup(catalog: seq<CategoryDef>, s: Store, m: nat, n: nat, j: nat)
    requires WellFormed(s) && OwnPages(catalog) && n < m <= |catalog|
    requires j < |catalog[n].apps| && catalog[n].apps[j].route !in s.apps
    ensures var route, t := catalog[n].apps[j].route, SyncFirst(catalog, s, m);
            route in t.apps && GoesTo(s, t, catalog[n], t.apps[route].categoryId)
  {
    hide SyncModule, WellFormed, OwnPages, TileNamed, Resolve, IsPage;
    var def, t := catalog[n], SyncFirst(catalog, s, m - 1);
    BootLater(catalog, s, m - 1);
    ModuleTurn(catalog, t, catalog[m - 1]);
    if n == m - 1 {
      UntilItsTurn(catalog, s, n, n);
      assert def.apps[0].route in s.apps <==> def.apps[0].route in t.apps;
      ModuleGroup(catalog, t, def, j);
    } else {
      FirstTurnsGroup(catalog, s, m - 1, n, j);
      NamedThroughTurn(catalog, t, m - 1, n);
    }
  }

  /** After a boot every page that was new is in the group of its module's first page, or in the tile of its name. */
  lemma {:induction false} NewPageGoesTo(catalog: seq<CategoryDef>, s: Store, n: nat, j: nat)
    requires WellFormed(s) && OwnPages(catalog) && n < |catalog|
    requires j < |catalog[n].apps| && catalog[n].apps[j].route !in s.apps
    ensures var route, t := catalog[n].apps[j].route, Sync(catalog, s);
            route in t.apps && GoesTo(s, t, catalog[n], t.apps[route].categoryId)
  {
    FirstTurnsGroup(catalog, s, |catalog|, n, j);
  }

  ghost predicate NewTilesFresh(s: Store, t: Store) {
    s.nextId <= t.nextId && forall k :: |s.tiles| <= k < |t.tiles| ==> t.tiles[k].id >= s.nextId
  }

  lemma {:induction false} FirstTurnsFresh(catalog: seq<CategoryDef>, s: Store, n: nat)
    requires WellFormed(s) && n <= |catalog|
    ensures NewTilesFresh(s, SyncFirst(catalog, s, n))
  {
    hide SyncModule, WellFormed, RowsStay, IsPage;
    if n > 0 {
      FirstTurnsFresh(catalog, s, n - 1);
      var t, u := SyncFirst(catalog, s, n - 1), SyncFirst(catalog, s, n);
      BootLater(catalog, s, n - 1);
      ModuleTurn(catalog, t, catalog[n - 1]);
      assert forall k :: 0 <= k < |t.tiles| ==> Matured(t.tiles[k], u.tiles[k]);
    }
  }

  /** A tile of a name no tile had is a new one. */
  lemma {:induction false} NamedAfterBoot(catalog: seq<CategoryDef>, s: Store, en: string)
    requires WellFormed(s) && TileNamed(Sync(catalog, s).tiles, en).Some?
    ensures var named, after := TileNamed(s.tiles, en), TileNamed(Sync(catalog, s).tiles, en).value.id;
            if named.Some? then after == named.value.id else after >= s.nextId
  {
    hide SyncFirst, WellFormed, RowsStay, TileNamed;
    var t := Sync(catalog, s);
    BootLater(catalog, s, |catalog|);
    FirstTurnsFresh(catalog, s, |catalog|);
    if TileNamed(s.tiles, en).Some? {
      NamedPrefix(s.tiles, t.tiles, en);
    } else {
      TileNamedIs(s.tiles, en);
      TileNamedIs(t.tiles, en);
      var k :| 0 <= k < |t.tiles| && t.tiles[k] == TileNamed(t.tiles, en).value && t.tiles[k].en == en;
      assert k < |s.tiles| ==> Matured(s.tiles[k], t.tiles[k]);
    }
  }

  lemma {:induction false} NamedPrefix(a: seq<Tile>, b: seq<Tile>, en: string)
    requires |a| <= |b| && (forall i :: 0 <= i < |a| ==> Matured(a[i], b[i])) && TileNamed(a, en).Some?
    ensures SameTile(TileNamed(a, en), TileNamed(b, en))
  {
    assert Matured(a[0], b[0]);
    if a[0].en != en {
      assert forall i :: 0 <= i < |a[1..]| ==> a[1..][i] == a[i + 1] && b[1..][i] == b[i + 1];
      NamedPrefix(a[1..], b[1..], en);
    }
  }

  /**
   * A page added in front of a module whose tile was renamed opens a second tile of the module's own name,
   * though the group lives on under the other.
   */
  lemma {:induction false} FrontPageLeavesGroup(catalog: seq<CategoryDef>, s: Store, n: nat, i: nat)
    requires WellFormed(s) && OwnPages(catalog) && n < |catalog| && 0 < i < |catalog[n].apps|
    requires TileNamed(s.tiles, catalog[n].en).None?
    requires catalog[n].apps[0].route !in s.apps && catalog[n].apps[i].route in s.apps
    ensures var front, stored, t := catalog[n].apps[0].route, catalog[n].apps[i].route, Sync(catalog, s);
            && front in t.apps && stored in t.apps && t.apps[stored].categoryId == s.apps[stored].categoryId
            && t.apps[front].categoryId >= s.nextId > t.apps[stored].categoryId
            && TileNamed(t.tiles, catalog[n].en).Some?
            && t.apps[front].categoryId == TileNamed(t.tiles, catalog[n].en).value.id
  {
    hide SyncFirst, OwnPages, TileNamed;
    NewPageGoesTo(catalog, s, n, 0);
    NamedAfterBoot(catalog, s, catalog[n].en);
    BootLater(catalog, s, |catalog|);
  }

  /** The module's stored pages all live in group `g`. */
  ghost predicate LivesIn(s: Store, def: CategoryDef, g: Id) {
    forall k :: 0 <= k < |def.apps| && def.apps[k].route in s.apps ==> s.apps[def.apps[k].route].categoryId == g
  }

  /**
   * After a boot a new page is in the group its module's stored pages live in exactly when the module's first page
   * was stored, or that group is the tile of the module's own name. So it also stays out when a tile of that name
   * is there and the stored pages were moved to another.
   */
  lemma {:induction false} NewPageJoinsIff(catalog: seq<CategoryDef>, s: Store, n: nat, g: Id, i: nat, j: nat)
    requires WellFormed(s) && OwnPages(catalog) && n < |catalog| && LivesIn(s, catalog[n], g)
    requires i < |catalog[n].apps| && j < |catalog[n].apps|
    requires catalog[n].apps[i].route in s.apps && catalog[n].apps[j].route !in s.apps
    ensures var route, t := catalog[n].apps[j].route, Sync(catalog, s);
            var named := TileNamed(s.tiles, catalog[n].en);
            && route in t.apps
            && (t.apps[route].categoryId == g <==>
                catalog[n].apps[0].route in s.apps || (named.Some? && named.value.id == g))
  {
    hide Sync, OwnPages, TileNamed;
    NewPageGoesTo(catalog, s, n, j);
    if catalog[n].apps[0].route !in s.apps {
      NamedAfterBoot(catalog, s, catalog[n].en);
    }
  }

  // ---------------------------------------------------------------- icons

  ghost predicate IconStays(a: seq<Tile>, b: seq<Tile>, k: nat) {
    k < |a| <= |b| && (a[k].icon.Some? ==> b[k].icon == a[k].icon)
  }

  /** Whoever the module is, it is not this tile, or this tile has its revision. */
  predicate IconQuiet(catalog: seq<CategoryDef>, s: Store, def: CategoryDef, id: Id) {
    var t := Resolve(catalog, s, def);
    t.Some? && t.value.id == id && def.iconRevision.Some? ==> def.iconRevision.value <= t.value.iconRevision
  }

  lemma {:induction false} BackfillKeepsIcon(s: Store, def: CategoryDef, k: nat)
    requires WellFormed(s) && k < |s.tiles|
    ensures IconStays(s.tiles, BackfillIcon(s, def).tiles, k)
  {
    TileNamedIs(s.tiles, def.en);
  }

  lemma {:induction false} CorrectKeepsIcon(catalog: seq<CategoryDef>, s: Store, def: CategoryDef, k: nat)
    requires k < |s.tiles| && IconQuiet(catalog, s, def, s.tiles[k].id)
    ensures IconStays(s.tiles, CorrectIcon(catalog, s, def).tiles, k)
  {
    hide Resolve;
  }

  lemma {:induction false} RetireKeepsIcon(catalog: seq<CategoryDef>, s: Store, def: CategoryDef, k: nat)
    requires WellFormed(s) && k < |s.tiles|
    ensures IconStays(s.tiles, Retire(catalog, s, def).tiles, k)
  {
    hide Resolve, SwitchOffSince;
    var t := Resolve(catalog, s, def);
    if t.Some? {
      ResolvesToTile(catalog, s, def);
      var i :| 0 <= i < |s.tiles| && s.tiles[i] == t.value;
    }
  }

  lemma {:induction false} PlaceKeepsTiles(s: Store, def: CategoryDef, k: nat)
    requires k < |s.tiles|
    ensures |s.tiles| <= |Place(s, def).tiles| && Place(s, def).tiles[k] == s.tiles[k]
  {
    hide Added, TileNamed;
  }

  /** Backfilling an icon does not change which tile a module is, nor its revision. */
  lemma {:induction false} BackfillKeepsView(catalog: seq<CategoryDef>, s: Store, def: CategoryDef, id: Id)
    requires WellFormed(s) && IconQuiet(catalog, s, def, id)
    ensures IconQuiet(catalog, BackfillIcon(s, def), def, id)
  {
    hide Resolve, TileNamed;
    var a := BackfillIcon(s, def);
    BackfillTurn(s, def);
    assert |a.tiles| == |s.tiles| && a.apps == s.apps;
    ViewStays(catalog, s, a, def, def.en + "!");
  }

  lemma {:induction false} ModuleKeepsIcon(catalog: seq<CategoryDef>, s: Store, def: CategoryDef, k: nat)
    requires WellFormed(s) && k < |s.tiles| && IconQuiet(catalog, s, def, s.tiles[k].id)
    ensures IconStays(s.tiles, SyncModule(catalog, s, def).tiles, k)
  {
    hide BackfillIcon, CorrectIcon, Retire, RepairAll, Place, IconQuiet, WellFormed, NewTilesNamed, RowsStay;
    var a := BackfillIcon(s, def);
    var b := CorrectIcon(catalog, a, def);
    var c := Retire(catalog, b, def);
    BackfillTurn(s, def);
    CorrectTurn(catalog, a, def);
    BackfillKeepsIcon(s, def, k);
    assert Matured(s.tiles[k], a.tiles[k]);
    BackfillKeepsView(catalog, s, def, s.tiles[k].id);
    CorrectKeepsIcon(catalog, a, def, k);
    RetireKeepsIcon(catalog, b, def, k);
    PlaceKeepsTiles(c.(apps := RepairAll(c.apps, def.apps)), def, k);
  }

  /** No module is this tile with a revision the tile has not recorded. */
  ghost predicate Quiet(catalog: seq<CategoryDef>, s: Store, id: Id) {
    forall n :: 0 <= n < |catalog| ==> IconQuiet(catalog, s, catalog[n], id)
  }

  lemma {:induction false} QuietAtTurn(catalog: seq<CategoryDef>, s: Store, n: nat, id: Id)
    requires WellFormed(s) && OwnPages(catalog) && n < |catalog| && IconQuiet(catalog, s, catalog[n], id)
    ensures IconQuiet(catalog, SyncFirst(catalog, s, n), catalog[n], id)
  {
    hide Resolve, SyncFirst, WellFormed, OwnPages, PagesAlike;
    UntilItsTurn(catalog, s, n, n);
  }

  lemma {:induction false} QuietTurnsKeepIcon(catalog: seq<CategoryDef>, s: Store, n: nat, k: nat)
    requires WellFormed(s) && OwnPages(catalog) && n <= |catalog| && k < |s.tiles| && Quiet(catalog, s, s.tiles[k].id)
    ensures IconStays(s.tiles, SyncFirst(catalog, s, n).tiles, k)
  {
    hide SyncModule, WellFormed, OwnPages, IconQuiet, RowsStay;
    if n > 0 {
      QuietTurnsKeepIcon(catalog, s, n - 1, k);
      BootLater(catalog, s, n - 1);
      var t := SyncFirst(catalog, s, n - 1);
      assert Matured(s.tiles[k], t.tiles[k]);
      QuietAtTurn(catalog, s, n - 1, s.tiles[k].id);
      ModuleKeepsIcon(catalog, t, catalog[n - 1], k);
      ModuleTurn(catalog, t, catalog[n - 1]);
    }
  }

  /** A boot leaves the icon of a tile alone once the tile has recorded the revision of every module it is. */
  lemma {:induction false} QuietBootKeepsIcon(catalog: seq<CategoryDef>, s: Store, k: nat)
    requires WellFormed(s) && OwnPages(catalog) && k < |s.tiles| && Quiet(catalog, s, s.tiles[k].id)
    ensures IconStays(s.tiles, Sync(catalog, s).tiles, k)
  {
    QuietTurnsKeepIcon(catalog, s, |catalog|, k);
  }

  // ---------------------------------------------------------------- what a boot records

  lemma {:induction false} CorrectRecords(catalog: seq<CategoryDef>, s: Store, def: CategoryDef, k: nat)
    requires WellFormed(s) && k < |s.tiles| && Resolve(catalog, s, def) == Some(s.tiles[k]) && def.iconRevision.Some?
    ensures def.iconRevision.value <= CorrectIcon(catalog, s, def).tiles[k].iconRevision
  {
    hide Resolve;
  }

  lemma {:induction false} ResolvedIndex(catalog: seq<CategoryDef>, s: Store, def: CategoryDef, k: nat)
    requires WellFormed(s) && k < |s.tiles| && Resolve(catalog, s, def).Some? &&
             Resolve(catalog, s, def).value.id == s.tiles[k].id
    ensures Resolve(catalog, s, def) == Some(s.tiles[k])
  {
    hide Resolve;
    ResolvesToTile(catalog, s, def);
    var i :| 0 <= i < |s.tiles| && s.tiles[i] == Resolve(catalog, s, def).value;
    assert i == k;
  }

  lemma {:induction false} ModuleRecords(catalog: seq<CategoryDef>, s: Store, def: CategoryDef, k: nat)
    requires WellFormed(s) && k < |s.tiles| && Resolve(catalog, s, def) == Some(s.tiles[k]) && def.iconRevision.Some?
    ensures k < |SyncModule(catalog, s, def).tiles|
    ensures def.iconRevision.value <= SyncModule(catalog, s, def).tiles[k].iconRevision
  {
    hide BackfillIcon, CorrectIcon, Retire, RepairAll, Place, WellFormed, NewTilesNamed, RowsStay, Resolve;
    var a := BackfillIcon(s, def);
    var b := CorrectIcon(catalog, a, def);
    var c := Retire(catalog, b, def);
    var d := c.(apps := RepairAll(c.apps, def.apps));
    BackfillTurn(s, def);
    assert Matured(s.tiles[k], a.tiles[k]);
    StillResolves(catalog, s, def, k);
    CorrectRecords(catalog, a, def, k);
    CorrectTurn(catalog, a, def);
    RetireTurn(catalog, b, def);
    assert Matured(a.tiles[k], b.tiles[k]) && Matured(b.tiles[k], c.tiles[k]);
    RepairTurn(c, def);
    PlaceKeepsTiles(d, def, k);
  }

  lemma {:induction false} StillResolves(catalog: seq<CategoryDef>, s: Store, def: CategoryDef, k: nat)
    requires WellFormed(s) && k < |s.tiles| && Resolve(catalog, s, def) == Some(s.tiles[k])
    ensures var a := BackfillIcon(s, def);
            k < |a.tiles| && Resolve(catalog, a, def) == Some(a.tiles[k])
  {
    hide Resolve, TileNamed;
    var a := BackfillIcon(s, def);
    BackfillTurn(s, def);
    assert |a.tiles| == |s.tiles| && a.apps == s.apps;
    ViewStays(catalog, s, a, def, def.en + "!");
    assert Matured(s.tiles[k], a.tiles[k]);
    ResolvedIndex(catalog, a, def, k);
  }

  /** After a boot the tile has recorded the revision of every module it was. */
  lemma {:induction false} BootRecords(catalog: seq<CategoryDef>, s: Store, m: nat, n: nat, k: nat)
    requires WellFormed(s) && OwnPages(catalog) && n < m <= |catalog| && k < |s.tiles| && catalog[n].iconRevision.Some?
    requires Resolve(catalog, s, catalog[n]).Some? && Resolve(catalog, s, catalog[n]).value.id == s.tiles[k].id
    ensures k < |SyncFirst(catalog, s, m).tiles|
    ensures catalog[n].iconRevision.value <= SyncFirst(catalog, s, m).tiles[k].iconRevision
  {
    hide SyncModule, WellFormed, OwnPages, Resolve, RowsStay, PagesAlike, NewTilesNamed, IsPage;
    var t := SyncFirst(catalog, s, m - 1);
    BootLater(catalog, s, m - 1);
    assert Matured(s.tiles[k], t.tiles[k]);
    ModuleTurn(catalog, t, catalog[m - 1]);
    assert Matured(t.tiles[k], SyncFirst(catalog, s, m).tiles[k]);
    if n < m - 1 {
      BootRecords(catalog, s, m - 1, n, k);
    } else {
      UntilItsTurn(catalog, s, n, n);
      ResolvedIndex(catalog, t, catalog[n], k);
      ModuleRecords(catalog, t, catalog[n], k);
    }
  }

  // ---------------------------------------------------------------- retired pages

  /** The module does not retire this page, or its tile has recorded the retirement. */
  predicate RetireQuiet(catalog: seq<CategoryDef>, s: Store, def: CategoryDef, route: string) {
    var t := Resolve(catalog, s, def);
    Retires(def.retired, route) && t.Some? ==> Latest(def.retired) <= t.value.retiredRevision
  }

  /** The icon steps of a module's turn. */
  function IconsSet(catalog: seq<CategoryDef>, s: Store, def: CategoryDef): Store {
    CorrectIcon(catalog, BackfillIcon(s, def), def)
  }

  lemma {:induction false} IconsKeepView(catalog: seq<CategoryDef>, s: Store, def: CategoryDef)
    requires WellFormed(s)
    ensures var b := IconsSet(catalog, s, def);
            WellFormed(b) && b.apps == s.apps && |b.tiles| == |s.tiles| && Later(s, b)
            && SameTile(Resolve(catalog, s, def), Resolve(catalog, b, def))
  {
    hide Resolve, TileNamed, IsPage;
    var a := BackfillIcon(s, def);
    var b := CorrectIcon(catalog, a, def);
    BackfillTurn(s, def);
    CorrectTurn(catalog, a, def);
    TurnTrans(s, a, b, def);
    assert |b.tiles| == |s.tiles| && b.apps == s.apps;
    ViewStays(catalog, s, b, def, def.en + "!");
  }

  lemma {:induction false} RetireKeepsStatus(catalog: seq<CategoryDef>, s: Store, def: CategoryDef, route: string)
    requires route in s.apps && RetireQuiet(catalog, s, def, route)
    ensures route in Retire(catalog, s, def).apps && Retire(catalog, s, def).apps[route] == s.apps[route]
  {
    hide Resolve, SwitchOffSince;
    var t := Resolve(catalog, s, def);
    if t.Some? {
      SwitchOffSinceStays(s.apps, def.retired, t.value.retiredRevision);
    }
  }

  lemma {:induction false} ModuleKeepsStatus(catalog: seq<CategoryDef>, s: Store, def: CategoryDef, route: string)
    requires WellFormed(s) && route in s.apps && RetireQuiet(catalog, s, def, route)
    ensures route in SyncModule(catalog, s, def).apps &&
            SyncModule(catalog, s, def).apps[route].active == s.apps[route].active
  {
    hide BackfillIcon, CorrectIcon, Retire, RepairAll, Place, WellFormed, Resolve, Turn, Later;
    var b := IconsSet(catalog, s, def);
    var c := Retire(catalog, b, def);
    var d := c.(apps := RepairAll(c.apps, def.apps));
    IconsKeepView(catalog, s, def);
    RetireKeepsStatus(catalog, b, def, route);
    RepairStays(c.apps, def.apps);
    RetireWellFormed(catalog, b, def);
    RepairTurn(c, def);
    TurnWellFormed(c, d, def);
    PlaceTurn(d, def);
  }

  lemma {:induction false} RetireWellFormed(catalog: seq<CategoryDef>, s: Store, def: CategoryDef)
    requires WellFormed(s)
    ensures WellFormed(Retire(catalog, s, def))
  {
    hide Retire, WellFormed;
    RetireTurn(catalog, s, def);
  }

  lemma {:induction false} TurnWellFormed(s: Store, t: Store, def: CategoryDef)
    requires Turn(s, t, def)
    ensures WellFormed(t)
  {
    hide WellFormed;
  }

  lemma {:induction false} QuietTurnsKeepStatus(catalog: seq<CategoryDef>, s: Store, n: nat, route: string)
    requires WellFormed(s) && OwnPages(catalog) && n <= |catalog| && route in s.apps
    requires forall m :: 0 <= m < |catalog| ==> RetireQuiet(catalog, s, catalog[m], route)
    ensures route in SyncFirst(catalog, s, n).apps &&
            SyncFirst(catalog, s, n).apps[route].active == s.apps[route].active
  {
    hide SyncModule, WellFormed, OwnPages, Resolve, RowsStay, PagesAlike, Later;
    if n > 0 {
      QuietTurnsKeepStatus(catalog, s, n - 1, route);
      BootLater(catalog, s, n - 1);
      UntilItsTurn(catalog, s, n - 1, n - 1);
      assert RetireQuiet(catalog, s, catalog[n - 1], route);
      ModuleKeepsStatus(catalog, SyncFirst(catalog, s, n - 1), catalog[n - 1], route);
    }
  }

  lemma {:induction false} RetireRecords(catalog: seq<CategoryDef>, s: Store, def: CategoryDef, k: nat)
    requires WellFormed(s) && k < |s.tiles| && Resolve(catalog, s, def) == Some(s.tiles[k])
    ensures Latest(def.retired) <= Retire(catalog, s, def).tiles[k].retiredRevision
  {
    hide Resolve, SwitchOffSince;
  }

  lemma {:induction false} ModuleRecordsRetirement(catalog: seq<CategoryDef>, s: Store, def: CategoryDef, k: nat)
    requires WellFormed(s) && k < |s.tiles| && Resolve(catalog, s, def) == Some(s.tiles[k])
    ensures k < |SyncModule(catalog, s, def).tiles|
    ensures Latest(def.retired) <= SyncModule(catalog, s, def).tiles[k].retiredRevision
  {
    hide BackfillIcon, CorrectIcon, Retire, RepairAll, Place, WellFormed, NewTilesNamed, RowsStay, Resolve;
    var b := IconsSet(catalog, s, def);
    var c := Retire(catalog, b, def);
    IconsKeepView(catalog, s, def);
    assert Matured(s.tiles[k], b.tiles[k]);
    ResolvedIndex(catalog, b, def, k);
    RetireRecords(catalog, b, def, k);
    RetireTurn(catalog, b, def);
    PlaceKeepsTiles(c.(apps := RepairAll(c.apps, def.apps)), def, k);
  }

  /** After a boot the tile has recorded the retirements of every module it was. */
  lemma {:induction false} BootRecordsRetirement(catalog: seq<CategoryDef>, s: Store, m: nat, n: nat, k: nat)
    requires WellFormed(s) && OwnPages(catalog) && n < m <= |catalog| && k < |s.tiles|
    requires Resolve(catalog, s, catalog[n]).Some? && Resolve(catalog, s, catalog[n]).value.id == s.tiles[k].id
    ensures k < |SyncFirst(catalog, s, m).tiles|
    ensures Latest(catalog[n].retired) <= SyncFirst(catalog, s, m).tiles[k].retiredRevision
  {
    hide SyncModule, WellFormed, OwnPages, Resolve, RowsStay, PagesAlike, NewTilesNamed, IsPage;
    var t := SyncFirst(catalog, s, m - 1);
    BootLater(catalog, s, m - 1);
    assert Matured(s.tiles[k], t.tiles[k]);
    ModuleTurn(catalog, t, catalog[m - 1]);
    assert Matured(t.tiles[k], SyncFirst(catalog, s, m).tiles[k]);
    if n < m - 1 {
      BootRecordsRetirement(catalog, s, m - 1, n, k);
    } else {
      UntilItsTurn(catalog, s, n, n);
      ResolvedIndex(catalog, t, catalog[n], k);
      ModuleRecordsRetirement(catalog, t, catalog[n], k);
    }
  }

  // ---------------------------------------------------------------- boots and edits in any order

  /** The tile is still there, with revisions no lower. */
  ghost predicate TileLater(s: Store, t: Store, id: Id) {
    var a, b := TileWithId(s.tiles, id), TileWithId(t.tiles, id);
    a.Some? ==>
      b.Some? && a.value.iconRevision <= b.value.iconRevision && a.value.retiredRevision <= b.value.retiredRevision
  }

  /** An administrator may change anything but a tile's recorded revisions, and deletes none of the tiles. */
  ghost predicate AdminEdit(s: Store, t: Store) {
    WellFormed(t) && forall id :: TileLater(s, t, id)
  }

  ghost predicate StepTo(catalog: seq<CategoryDef>, s: Store, t: Store) {
    t == Sync(catalog, s) || AdminEdit(s, t)
  }

  ghost predicate Run(catalog: seq<CategoryDef>, states: seq<Store>) {
    && states != [] && WellFormed(states[0])
    && forall i :: 0 <= i < |states| - 1 ==> StepTo(catalog, states[i], states[i + 1])
  }

  lemma {:induction false} LaterTile(s: Store, t: Store, id: Id)
    requires WellFormed(s) && WellFormed(t) && Later(s, t)
    ensures TileLater(s, t, id)
  {
    hide TileWithId;
    TileWithIdIs(s.tiles, id);
    if TileWithId(s.tiles, id).Some? {
      var i :| 0 <= i < |s.tiles| && s.tiles[i] == TileWithId(s.tiles, id).value && s.tiles[i].id == id;
      assert Matured(s.tiles[i], t.tiles[i]);
      TileAt(t.tiles, i);
    }
  }

  /** Over any run recorded revisions never decrease. */
  lemma {:induction false} RunKeepsRevisions(catalog: seq<CategoryDef>, states: seq<Store>, i: nat, j: nat, id: Id)
    requires Run(catalog, states) && i <= j < |states|
    ensures WellFormed(states[j]) && TileLater(states[i], states[j], id)
    decreases j
  {
    hide Sync, WellFormed, TileWithId, Later, RowsStay;
    if j > 0 {
      if i < j {
        RunKeepsRevisions(catalog, states, i, j - 1, id);
      } else {
        RunKeepsRevisions(catalog, states, j - 1, j - 1, id);
      }
      assert StepTo(catalog, states[j - 1], states[j]);
      if states[j] == Sync(catalog, states[j - 1]) {
        RevisionsNeverDecrease(catalog, states[j - 1]);
        LaterTile(states[j - 1], states[j], id);
      } else {
        assert TileLater(states[j - 1], states[j], id);
      }
    }
  }

  predicate IsTile(catalog: seq<CategoryDef>, s: Store, def: CategoryDef, id: Id) {
    Resolve(catalog, s, def).Some? && Resolve(catalog, s, def).value.id == id
  }

  lemma {:induction false} RecordedAt(catalog: seq<CategoryDef>, s: Store, n: nat, id: Id)
    requires WellFormed(s) && OwnPages(catalog) && n < |catalog| && IsTile(catalog, s, catalog[n], id)
    ensures var t := TileWithId(Sync(catalog, s).tiles, id);
            && t.Some? && (catalog[n].iconRevision.Some? ==> catalog[n].iconRevision.value <= t.value.iconRevision)
            && Latest(catalog[n].retired) <= t.value.retiredRevision
  {
    hide Resolve, SyncFirst, OwnPages, TileWithId;
    ResolvesToTile(catalog, s, catalog[n]);
    var k :| 0 <= k < |s.tiles| && s.tiles[k] == Resolve(catalog, s, catalog[n]).value;
    if catalog[n].iconRevision.Some? {
      BootRecords(catalog, s, |catalog|, n, k);
    }
    BootRecordsRetirement(catalog, s, |catalog|, n, k);
    RevisionsNeverDecrease(catalog, s);
    assert Matured(s.tiles[k], Sync(catalog, s).tiles[k]);
    TileAt(Sync(catalog, s).tiles, k);
  }

  lemma {:induction false} ResolvedTile(catalog: seq<CategoryDef>, s: Store, def: CategoryDef, id: Id)
    requires WellFormed(s) && IsTile(catalog, s, def, id)
    ensures TileWithId(s.tiles, id) == Resolve(catalog, s, def)
  {
    hide Resolve, TileWithId;
    ResolvesToTile(catalog, s, def);
    var k :| 0 <= k < |s.tiles| && s.tiles[k] == Resolve(catalog, s, def).value;
    TileAt(s.tiles, k);
  }

  /** Between the first boot and the boot at `j`, the modules that are this tile did not change. */
  ghost predicate SameModules(catalog: seq<CategoryDef>, s: Store, t: Store, id: Id) {
    forall n :: 0 <= n < |catalog| && IsTile(catalog, t, catalog[n], id) ==> IsTile(catalog, s, catalog[n], id)
  }

  lemma {:induction false} QuietSince(catalog: seq<CategoryDef>, states: seq<Store>, j: nat, id: Id)
    requires Run(catalog, states) && OwnPages(catalog) && 1 <= j < |states|
    requires states[1] == Sync(catalog, states[0]) && SameModules(catalog, states[0], states[j], id)
    ensures Quiet(catalog, states[j], id)
  {
    hide Resolve, Sync, OwnPages, TileWithId, StepTo, WellFormed, Run;
    RunKeepsRevisions(catalog, states, 0, 0, id);
    RunKeepsRevisions(catalog, states, 1, j, id);
    forall n | 0 <= n < |catalog| ensures IconQuiet(catalog, states[j], catalog[n], id) {
      if IsTile(catalog, states[j], catalog[n], id) {
        RecordedAt(catalog, states[0], n, id);
        ResolvedTile(catalog, states[j], catalog[n], id);
      }
    }
  }

  /** Once a boot has recorded its modules' revisions on a tile, no later boot changes the tile's non-null icon. */
  lemma {:induction false} IconIsTheAdministrators(catalog: seq<CategoryDef>, states: seq<Store>, j: nat, id: Id)
    requires Run(catalog, states) && OwnPages(catalog) && 1 <= j < |states| && TileWithId(states[j].tiles, id).Some?
    requires states[1] == Sync(catalog, states[0]) && SameModules(catalog, states[0], states[j], id)
    ensures var before, after := TileWithId(states[j].tiles, id), TileWithId(Sync(catalog, states[j]).tiles, id);
            after.Some? && (before.value.icon.Some? ==> after.value.icon == before.value.icon)
  {
    hide Sync, OwnPages, TileWithId, StepTo, Run, Quiet, SameModules, RowsStay;
    var s := states[j];
    RunKeepsRevisions(catalog, states, j, j, id);
    QuietSince(catalog, states, j, id);
    TileWithIdIs(s.tiles, id);
    var k :| 0 <= k < |s.tiles| && s.tiles[k] == TileWithId(s.tiles, id).value && s.tiles[k].id == id;
    QuietBootKeepsIcon(catalog, s, k);
    RevisionsNeverDecrease(catalog, s);
    assert Matured(s.tiles[k], Sync(catalog, s).tiles[k]);
    TileAt(Sync(catalog, s).tiles, k);
  }

  /** Every module that retires the page and is some tile now was that tile at the first boot. */
  ghost predicate SameRetirers(catalog: seq<CategoryDef>, s: Store, t: Store, route: string) {
    forall n :: 0 <= n < |catalog| && Retires(catalog[n].retired, route) && Resolve(catalog, t, catalog[n]).Some? ==>
      IsTile(catalog, s, catalog[n], Resolve(catalog, t, catalog[n]).value.id)
  }

  /** Once a boot has retired a page, no later boot switches off what an administrator switched back on. */
  lemma {:induction false} StatusIsTheAdministrators(
    catalog: seq<CategoryDef>, states: seq<Store>, j: nat, route: string)
    requires Run(catalog, states) && OwnPages(catalog) && 1 <= j < |states| && route in states[j].apps
    requires states[1] == Sync(catalog, states[0]) && SameRetirers(catalog, states[0], states[j], route)
    ensures var after := Sync(catalog, states[j]).apps;
            route in after && after[route].active == states[j].apps[route].active
  {
    hide Resolve, SyncFirst, OwnPages, TileWithId, StepTo, WellFormed, Run, Retires, Latest;
    var s := states[j];
    RunKeepsRevisions(catalog, states, 0, 0, 0);
    RunKeepsRevisions(catalog, states, j, j, 0);
    forall n | 0 <= n < |catalog| ensures RetireQuiet(catalog, s, catalog[n], route) {
      if Retires(catalog[n].retired, route) && Resolve(catalog, s, catalog[n]).Some? {
        var id := Resolve(catalog, s, catalog[n]).value.id;
        RunKeepsRevisions(catalog, states, 1, j, id);
        RecordedAt(catalog, states[0], n, id);
        ResolvedTile(catalog, s, catalog[n], id);
      }
    }
    QuietTurnsKeepStatus(catalog, s, |catalog|, route);
  }
}
