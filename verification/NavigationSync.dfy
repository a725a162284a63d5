/** Where new rows of a module land among the stored ones (apps/api/src/seed-navigation.ts, lines 1558-1597). */
module NavigationOrders {
  import opened Options

  const BEFORE_FIRST: real := -10.0

  /** The order of the next stored row, from index `i` on. */
  function NextStored(stored: seq<Option<real>>, i: nat): Option<real>
    requires i <= |stored|
    decreases |stored| - i
  {
    if i == |stored| then None else if stored[i].Some? then stored[i] else NextStored(stored, i + 1)
  }

  /** The order of the row before, the lower bound of a new one. */
  function Low(stored: seq<Option<real>>, i: nat): real
    requires i <= |stored|
    decreases i, 0
  {
    if i == 0 then BEFORE_FIRST else OrderAt(stored, i - 1)
  }

  function High(stored: seq<Option<real>>, i: nat): real
    requires i < |stored|
    decreases i, 1
  {
    var next := NextStored(stored, i + 1);
    if next.Some? then next.value else Low(stored, i) + 20.0
  }

  /** The order a row has after the sync: its stored one, or half way between its neighbours. */
  function OrderAt(stored: seq<Option<real>>, i: nat): real
    requires i < |stored|
    decreases i, 2
  {
    if stored[i].Some? then stored[i].value else (Low(stored, i) + High(stored, i)) / 2.0
  }

  ghost predicate StoredIncrease(stored: seq<Option<real>>) {
    forall i, j :: 0 <= i < j < |stored| && stored[i].Some? && stored[j].Some? ==> stored[i].value < stored[j].value
  }

  ghost predicate StoredAbove(stored: seq<Option<real>>, low: real) {
    forall i :: 0 <= i < |stored| && stored[i].Some? ==> low < stored[i].value
  }

  ghost predicate OrdersIncrease(stored: seq<Option<real>>) {
    forall i, j :: 0 <= i < j < |stored| ==> OrderAt(stored, i) < OrderAt(stored, j)
  }

  lemma {:induction false} NextIsStored(stored: seq<Option<real>>, i: nat)
    requires i <= |stored|
    ensures NextStored(stored, i).Some? ==> exists j :: i <= j < |stored| && stored[j] == NextStored(stored, i)
    ensures NextStored(stored, i).None? ==> forall j :: i <= j < |stored| ==> stored[j].None?
    decreases |stored| - i
  {
    if i < |stored| && stored[i].None? {
      NextIsStored(stored, i + 1);
    }
  }

  /** Every row lands above the row before it and below the next stored row. */
  lemma {:induction false} LandsBetween(stored: seq<Option<real>>, i: nat)
    requires StoredIncrease(stored) && i < |stored|
    requires stored[0].Some? || StoredAbove(stored, BEFORE_FIRST)
    ensures i > 0 || StoredAbove(stored, BEFORE_FIRST) ==> Low(stored, i) < OrderAt(stored, i)
    ensures NextStored(stored, i + 1).Some? ==> OrderAt(stored, i) < NextStored(stored, i + 1).value
  {
    NextIsStored(stored, i + 1);
    if i > 0 {
      LandsBetween(stored, i - 1);
      assert stored[i].Some? ==> NextStored(stored, i) == stored[i];
      assert stored[i].None? ==> NextStored(stored, i) == NextStored(stored, i + 1);
    }
  }

  lemma {:induction false} OrdersStep(stored: seq<Option<real>>, i: nat, j: nat)
    requires StoredIncrease(stored) && i < j < |stored|
    requires stored[0].Some? || StoredAbove(stored, BEFORE_FIRST)
    ensures OrderAt(stored, i) < OrderAt(stored, j)
    decreases j
  {
    LandsBetween(stored, j);
    if i < j - 1 {
      OrdersStep(stored, i, j - 1);
    }
  }

  /**
   * The whole module comes out in catalog order exactly when the stored rows were in it, above -10 if a row is missing
   * in front.
   */
  lemma {:induction false} OrdersIncreaseIff(stored: seq<Option<real>>)
    requires stored != []
    ensures OrdersIncrease(stored) <==> StoredIncrease(stored) && (stored[0].Some? || StoredAbove(stored, BEFORE_FIRST))
  {
    if StoredIncrease(stored) && (stored[0].Some? || StoredAbove(stored, BEFORE_FIRST)) {
      forall i, j | 0 <= i < j < |stored| ensures OrderAt(stored, i) < OrderAt(stored, j) {
        OrdersStep(stored, i, j);
      }
    }
    if OrdersIncrease(stored) {
      forall i, j | 0 <= i < j < |stored| && stored[i].Some? && stored[j].Some?
        ensures stored[i].value < stored[j].value
      {
        assert OrderAt(stored, i) < OrderAt(stored, j);
      }
      if stored[0].None? {
        forall i | 0 <= i < |stored| && stored[i].Some? ensures BEFORE_FIRST < stored[i].value {
          NextIsStored(stored, 1);
          var j :| 1 <= j < |stored| && stored[j] == NextStored(stored, 1);
          assert OrderAt(stored, 0) < OrderAt(stored, j);
          assert OrderAt(stored, 0) < OrderAt(stored, i);
        }
      }
    }
  }

  /** A wholly new group is numbered 0, 10, 20 and so on. */
  lemma {:induction false} NewGroupNumbers(stored: seq<Option<real>>, i: nat)
    requires i < |stored| && forall j :: 0 <= j < |stored| ==> stored[j].None?
    ensures OrderAt(stored, i) == 10.0 * i as real
  {
    NextIsStored(stored, i + 1);
    if i > 0 {
      NewGroupNumbers(stored, i - 1);
    }
  }
}

/**
 * The navigation store, and what one boot does to it (apps/api/src/seed-navigation.ts, lines 1301-1418 and 1463-1597).
 */
module NavigationSpec {
  import opened Options
  import opened Sequences
  import opened NavigationOrders

  type Id = nat

  datatype AppDef = AppDef(
    route: string, icon: string, permission: string, previousIcon: Option<string>, previousPermission: Option<string>)

  datatype Retirement = Retirement(revision: nat, routes: seq<string>)

  datatype CategoryDef = CategoryDef(
    en: string, icon: string, iconRevision: Option<nat>, apps: seq<AppDef>, retired: seq<Retirement>)

  datatype Tile = Tile(id: Id, en: string, icon: Option<string>, iconRevision: nat, retiredRevision: nat)

  datatype AppRow = AppRow(categoryId: Id, sortOrder: real, active: bool, icon: string, permissionKey: Option<string>)

  datatype Store = Store(tiles: seq<Tile>, apps: map<string, AppRow>, nextId: Id)

  // ---------------------------------------------------------------- which tile a module is

  function TileNamed(tiles: seq<Tile>, en: string): Option<Tile> {
    if tiles == [] then None else if tiles[0].en == en then Some(tiles[0]) else TileNamed(tiles[1..], en)
  }

  function TileWithId(tiles: seq<Tile>, id: Id): Option<Tile> {
    if tiles == [] then None else if tiles[0].id == id then Some(tiles[0]) else TileWithId(tiles[1..], id)
  }

  /** The groups the module's stored pages live in, page by page. */
  function HeldBy(defs: seq<AppDef>, apps: map<string, AppRow>): seq<Id> {
    if defs == [] then []
    else
      var last := defs[|defs| - 1];
      HeldBy(defs[..|defs| - 1], apps) + (if last.route in apps then [apps[last.route].categoryId] else [])
  }

  function Itself(id: Id): Id {
    id
  }

  predicate IsMajority(held: seq<Id>, id: Id) {
    multiset(held)[id] * 2 > |held|
  }

  function FirstMajority(order: seq<Id>, held: seq<Id>): Option<Id> {
    if order == [] then None else if IsMajority(held, order[0]) then Some(order[0]) else FirstMajority(order[1..], held)
  }

  /** The group that holds more than half of the module's stored pages. */
  function Holder(defs: seq<AppDef>, apps: map<string, AppRow>): Option<Id> {
    var held := HeldBy(defs, apps);
    FirstMajority(KeysOf(held, Itself), held)
  }

  predicate AnotherModules(catalog: seq<CategoryDef>, def: CategoryDef, en: string) {
    exists i :: 0 <= i < |catalog| && catalog[i] != def && catalog[i].en == en
  }

  /** `findCatalogCategory` */
  function Resolve(catalog: seq<CategoryDef>, s: Store, def: CategoryDef): Option<Tile> {
    var named := TileNamed(s.tiles, def.en);
    if named.Some? then named
    else
      var id := Holder(def.apps, s.apps);
      if id.None? then None
      else
        var holder := TileWithId(s.tiles, id.value);
        if holder.None? || AnotherModules(catalog, def, holder.value.en) then None else holder
  }

  // ---------------------------------------------------------------- tiles

  /** The tile with this id, rewritten. */
  function Rewrite(
    tiles: seq<Tile>, id: Id, icon: Option<string>, iconRevision: nat, retiredRevision: nat): (r: seq<Tile>)
    ensures |r| == |tiles|
    ensures forall i :: 0 <= i < |tiles| ==>
      r[i] == if tiles[i].id == id then Tile(id, tiles[i].en, icon, iconRevision, retiredRevision) else tiles[i]
  {
    if tiles == [] then []
    else
      var n := |tiles| - 1;
      Rewrite(tiles[..n], id, icon, iconRevision, retiredRevision)
      + [if tiles[n].id == id then Tile(id, tiles[n].en, icon, iconRevision, retiredRevision) else tiles[n]]
  }

  /** `backfillCategoryIcon` */
  function BackfillIcon(s: Store, def: CategoryDef): Store {
    var t := TileNamed(s.tiles, def.en);
    if t.None? || t.value.icon.Some? then s
    else s.(tiles := Rewrite(s.tiles, t.value.id, Some(def.icon), t.value.iconRevision, t.value.retiredRevision))
  }

  /** `correctCategoryIcon` */
  function CorrectIcon(catalog: seq<CategoryDef>, s: Store, def: CategoryDef): Store {
    var t := Resolve(catalog, s, def);
    if def.iconRevision.None? || t.None? || t.value.iconRevision >= def.iconRevision.value then s
    else s.(tiles := Rewrite(s.tiles, t.value.id, Some(def.icon), def.iconRevision.value, t.value.retiredRevision))
  }

  function Latest(retired: seq<Retirement>): nat {
    if retired == [] then 0
    else
      var rest, last := Latest(retired[..|retired| - 1]), retired[|retired| - 1].revision;
      if last > rest then last else rest
  }

  function SwitchOff(apps: map<string, AppRow>, routes: seq<string>): map<string, AppRow> {
    if routes == [] then apps
    else
      var before, last := SwitchOff(apps, routes[..|routes| - 1]), routes[|routes| - 1];
      if last in before && before[last].active then before[last := before[last].(active := false)] else before
  }

  function SwitchOffSince(apps: map<string, AppRow>, retired: seq<Retirement>, done: nat): map<string, AppRow> {
    if retired == [] then apps
    else
      var before, last := SwitchOffSince(apps, retired[..|retired| - 1], done), retired[|retired| - 1];
      if last.revision <= done then before else SwitchOff(before, last.routes)
  }

  /** `retireApplications` */
  function Retire(catalog: seq<CategoryDef>, s: Store, def: CategoryDef): Store {
    var latest, t := Latest(def.retired), Resolve(catalog, s, def);
    if latest == 0 || t.None? || t.value.retiredRevision >= latest then s
    else s.(tiles := Rewrite(s.tiles, t.value.id, t.value.icon, t.value.iconRevision, latest),
            apps := SwitchOffSince(s.apps, def.retired, t.value.retiredRevision))
  }

  // ---------------------------------------------------------------- applications

  /** The three repairs of one stored application: a missing key, an outdated icon, an outdated key. */
  function Repaired(row: AppRow, app: AppDef): AppRow {
    var keyed := if row.permissionKey.None? then row.(permissionKey := Some(app.permission)) else row;
    var drawn := if app.previousIcon == Some(keyed.icon) then keyed.(icon := app.icon) else keyed;
    if app.previousPermission.Some? && drawn.permissionKey == app.previousPermission
    then drawn.(permissionKey := Some(app.permission)) else drawn
  }

  function RepairAll(apps: map<string, AppRow>, defs: seq<AppDef>): map<string, AppRow> {
    if defs == [] then apps
    else
      var before, last := RepairAll(apps, defs[..|defs| - 1]), defs[|defs| - 1];
      if last.route in before then before[last.route := Repaired(before[last.route], last)] else before
  }

  // ---------------------------------------------------------------- new rows

  function StoredOrders(defs: seq<AppDef>, apps: map<string, AppRow>): (r: seq<Option<real>>)
    ensures |r| == |defs|
    ensures forall i :: 0 <= i < |defs| ==>
              r[i] == if defs[i].route in apps then Some(apps[defs[i].route].sortOrder) else None
  {
    if defs == [] then []
    else
      var n := |defs| - 1;
      StoredOrders(defs[..n], apps) + [if defs[n].route in apps then Some(apps[defs[n].route].sortOrder) else None]
  }

  /** `ensureCategory`: the tile of that name, or a new one born at its icon's revision. */
  function EnsureCategory(s: Store, def: CategoryDef): (Store, Id) {
    match TileNamed(s.tiles, def.en)
    case Some(t) => (s, t.id)
    case None =>
      var tile :=
        Tile(s.nextId, def.en, Some(def.icon), if def.iconRevision.Some? then def.iconRevision.value else 0, 0);
      (s.(tiles := s.tiles + [tile], nextId := s.nextId + 1), s.nextId)
  }

  function NewRow(app: AppDef, categoryId: Id, order: real): AppRow {
    AppRow(categoryId, order, true, app.icon, Some(app.permission))
  }

  /** The applications once the first `n` rows of the module have been walked. */
  function Added(defs: seq<AppDef>, apps: map<string, AppRow>, categoryId: Id, n: nat): map<string, AppRow>
    requires n <= |defs|
  {
    if n == 0 then apps
    else
      var before, app := Added(defs, apps, categoryId, n - 1), defs[n - 1];
      if app.route in apps then before
      else before[app.route := NewRow(app, categoryId, OrderAt(StoredOrders(defs, apps), n - 1))]
  }

  /** The group new rows join: that of the module's first row, or the seed's own when that row is itself new. */
  function Place(s: Store, def: CategoryDef): Store {
    if def.apps == [] then s
    else if def.apps[0].route in s.apps then
      s.(apps := Added(def.apps, s.apps, s.apps[def.apps[0].route].categoryId, |def.apps|))
    else
      var (t, id) := EnsureCategory(s, def);
      t.(apps := Added(def.apps, s.apps, id, |def.apps|))
  }

  function SyncModule(catalog: seq<CategoryDef>, s: Store, def: CategoryDef): Store {
    var icons := CorrectIcon(catalog, BackfillIcon(s, def), def);
    var retired := Retire(catalog, icons, def);
    Place(retired.(apps := RepairAll(retired.apps, def.apps)), def)
  }

  /** The boot, over the first `n` modules of the catalog. */
  function SyncFirst(catalog: seq<CategoryDef>, s: Store, n: nat): Store
    requires n <= |catalog|
  {
    if n == 0 then s else SyncModule(catalog, SyncFirst(catalog, s, n - 1), catalog[n - 1])
  }

  /** `syncNavigationCatalog` */
  function Sync(catalog: seq<CategoryDef>, s: Store): Store {
    SyncFirst(catalog, s, |catalog|)
  }
}

/**
 * The boot itself, over a store it updates in place (apps/api/src/seed-navigation.ts, lines 1325-1418 and 1545-1597).
 */
module Navigation {
  import opened Options
  import opened Sequences
  import opened NavigationOrders
  import opened NavigationSpec

  class Installation {
    const catalog: seq<CategoryDef>
    var tiles: seq<Tile>
    var apps: map<string, AppRow>
    var nextId: Id

    ghost function Now(): Store
      reads this
    {
      Store(tiles, apps, nextId)
    }

    constructor (catalog: seq<CategoryDef>, s: Store)
      ensures this.catalog == catalog && Now() == s
    {
      this.catalog := catalog;
      tiles, apps, nextId := s.tiles, s.apps, s.nextId;
    }

    /** Counts the groups the stored pages live in, in the order they are met. */
    method CountHolders(defs: seq<AppDef>) returns (order: seq<Id>, held: map<Id, nat>, stored: nat)
      ensures stored == |HeldBy(defs, apps)| && order == KeysOf(HeldBy(defs, apps), Itself)
      ensures forall id :: id in order ==> id in held && held[id] == multiset(HeldBy(defs, apps))[id]
    {
      hide HeldBy, KeysOf;
      assert defs[..0] == [] && HeldBy([], apps) == [] && KeysOf<Id, Id>([], Itself) == [] by {
        NothingHeld(apps);
      }
      order, held, stored := [], map[], 0;
      for i := 0 to |defs|
        invariant stored == |HeldBy(defs[..i], apps)| && order == KeysOf(HeldBy(defs[..i], apps), Itself)
        invariant held.Keys == set id | id in order
        invariant forall id :: id in order ==> held[id] == multiset(HeldBy(defs[..i], apps))[id]
        invariant forall id :: id !in order ==> multiset(HeldBy(defs[..i], apps))[id] == 0
      {
        OneMoreHeld(defs, i, apps);
        if defs[i].route in apps {
          var id := apps[defs[i].route].categoryId;
          stored := stored + 1;
          if id in held {
            held := held[id := held[id] + 1];
          } else {
            order := order + [id];
            held := held[id := 1];
          }
        }
      }
      assert defs[..|defs|] == defs;
    }

    method FindHolder(defs: seq<AppDef>) returns (id: Option<Id>)
      ensures id == Holder(defs, apps)
    {
      var order, held, stored := CountHolders(defs);
      ghost var all := HeldBy(defs, apps);
      for i := 0 to |order|
        invariant FirstMajority(order, all) == FirstMajority(order[i..], all)
      {
        assert order[i] in order;
        if held[order[i]] * 2 > stored {
          return Some(order[i]);
        }
        assert order[i..][1..] == order[i + 1..];
      }
      id := None;
    }

    method FindCatalogCategory(def: CategoryDef) returns (t: Option<Tile>)
      ensures t == Resolve(catalog, Now(), def)
    {
      t := TileNamed(tiles, def.en);
      if t.Some? {
        return;
      }
      var holderId := FindHolder(def.apps);
      if holderId.None? {
        return None;
      }
      t := TileWithId(tiles, holderId.value);
      if t.Some? && AnotherModules(catalog, def, t.value.en) {
        t := None;
      }
    }

    method BackfillCategoryIcon(def: CategoryDef)
      modifies this
      ensures Now() == BackfillIcon(old(Now()), def)
    {
      var t := TileNamed(tiles, def.en);
      if t.Some? && t.value.icon.None? {
        tiles := Rewrite(tiles, t.value.id, Some(def.icon), t.value.iconRevision, t.value.retiredRevision);
      }
    }

    method CorrectCategoryIcon(def: CategoryDef)
      modifies this
      ensures Now() == CorrectIcon(catalog, old(Now()), def)
    {
      if def.iconRevision.None? {
        return;
      }
      var t := FindCatalogCategory(def);
      if t.None? || t.value.iconRevision >= def.iconRevision.value {
        return;
      }
      tiles := Rewrite(tiles, t.value.id, Some(def.icon), def.iconRevision.value, t.value.retiredRevision);
    }

    method RetireApplications(def: CategoryDef)
      modifies this
      ensures Now() == Retire(catalog, old(Now()), def)
    {
      var latest := 0;
      for i := 0 to |def.retired|
        invariant latest == Latest(def.retired[..i]) && Now() == old(Now())
      {
        assert def.retired[..i + 1][..i] == def.retired[..i];
        if def.retired[i].revision > latest {
          latest := def.retired[i].revision;
        }
      }
      assert def.retired[..|def.retired|] == def.retired;
      if latest == 0 {
        return;
      }
      var category := FindCatalogCategory(def);
      if category.None? || category.value.retiredRevision >= latest {
        return;
      }
      SwitchOffRetired(def, category.value.retiredRevision);
      tiles := Rewrite(tiles, category.value.id, category.value.icon, category.value.iconRevision, latest);
    }

    method SwitchOffRetired(def: CategoryDef, done: nat)
      modifies this`apps
      ensures apps == SwitchOffSince(old(apps), def.retired, done)
    {
      for i := 0 to |def.retired|
        invariant apps == SwitchOffSince(old(apps), def.retired[..i], done)
      {
        assert def.retired[..i + 1][..i] == def.retired[..i];
        var entry := def.retired[i];
        if entry.revision > done {
          ghost var before := apps;
          for j := 0 to |entry.routes|
            invariant apps == SwitchOff(before, entry.routes[..j])
          {
            assert entry.routes[..j + 1][..j] == entry.routes[..j];
            var route := entry.routes[j];
            if route in apps && apps[route].active {
              apps := apps[route := apps[route].(active := false)];
            }
          }
          assert entry.routes[..|entry.routes|] == entry.routes;
        }
      }
      assert def.retired[..|def.retired|] == def.retired;
    }

    method RepairApplications(def: CategoryDef)
      modifies this`apps
      ensures apps == RepairAll(old(apps), def.apps)
    {
      for i := 0 to |def.apps|
        invariant apps == RepairAll(old(apps), def.apps[..i])
      {
        assert def.apps[..i + 1][..i] == def.apps[..i];
        var app := def.apps[i];
        if app.route in apps && apps[app.route].permissionKey.None? {
          apps := apps[app.route := apps[app.route].(permissionKey := Some(app.permission))];
        }
        if app.previousIcon.Some? && app.route in apps && apps[app.route].icon == app.previousIcon.value {
          apps := apps[app.route := apps[app.route].(icon := app.icon)];
        }
        if app.previousPermission.Some? && app.route in apps &&
          apps[app.route].permissionKey == app.previousPermission {
          apps := apps[app.route := apps[app.route].(permissionKey := Some(app.permission))];
        }
      }
      assert def.apps[..|def.apps|] == def.apps;
    }

    method EnsureCategory(def: CategoryDef) returns (id: Id)
      modifies this`tiles, this`nextId
      ensures (Now(), id) == NavigationSpec.EnsureCategory(old(Now()), def)
    {
      var existing := TileNamed(tiles, def.en);
      if existing.Some? {
        return existing.value.id;
      }
      id := nextId;
      tiles :=
        tiles + [Tile(id, def.en, Some(def.icon), if def.iconRevision.Some? then def.iconRevision.value else 0, 0)];
      nextId := nextId + 1;
    }

    /** The walk over the module's rows, carrying the lower bound and the group. */
    method PlaceNewRows(def: CategoryDef)
      modifies this
      ensures Now() == Place(old(Now()), def)
    {
      ghost var s := Now();
      var stored := StoredOrders(def.apps, apps);
      var existing := apps;
      var categoryId: Option<Id> := None;
      var low := BEFORE_FIRST;
      for i := 0 to |def.apps|
        invariant low == Low(stored, i)
        invariant i == 0 ==> categoryId == None && Now() == s
        invariant i > 0 ==>
                    categoryId == Some(Target(s, def)) && tiles == Opened(s, def).tiles &&
                      nextId == Opened(s, def).nextId
        invariant i > 0 ==> apps == Added(def.apps, s.apps, Target(s, def), i)
      {
        var app := def.apps[i];
        assert Low(stored, i + 1) == OrderAt(stored, i);
        if stored[i].Some? {
          if categoryId.None? {
            categoryId := Some(existing[app.route].categoryId);
          }
          low := stored[i].value;
        } else {
          var next := NextStored(stored, i + 1);
          var high := if next.Some? then next.value else low + 20.0;
          assert high == High(stored, i);
          var order := (low + high) / 2.0;
          if categoryId.None? {
            var id := EnsureCategory(def);
            categoryId := Some(id);
          }
          apps := apps[app.route := NewRow(app, categoryId.value, order)];
          low := order;
        }
      }
    }

    method SyncCategory(def: CategoryDef)
      modifies this
      ensures Now() == SyncModule(catalog, old(Now()), def)
    {
      hide CorrectIcon, BackfillIcon, Retire, RepairAll, Place;
      BackfillCategoryIcon(def);
      CorrectCategoryIcon(def);
      RetireApplications(def);
      RepairApplications(def);
      PlaceNewRows(def);
    }

    method SyncNavigationCatalog()
      modifies this
      ensures Now() == Sync(catalog, old(Now()))
    {
      hide SyncModule;
      for n := 0 to |catalog|
        invariant Now() == SyncFirst(catalog, old(Now()), n)
      {
        SyncCategory(catalog[n]);
      }
    }
  }

  lemma {:induction false} NothingHeld(apps: map<string, AppRow>)
    ensures HeldBy([], apps) == [] && KeysOf<Id, Id>([], Itself) == []
  {
  }

  lemma {:induction false} OneMoreHeld(defs: seq<AppDef>, i: nat, apps: map<string, AppRow>)
    requires i < |defs|
    ensures var before, after := HeldBy(defs[..i], apps), HeldBy(defs[..i + 1], apps);
            if defs[i].route !in apps then after == before
            else
              var id := apps[defs[i].route].categoryId;
              && |after| == |before| + 1 && multiset(after) == multiset(before) + multiset{id}
              && KeysOf(after, Itself) ==
                (if id in KeysOf(before, Itself) then KeysOf(before, Itself) else KeysOf(before, Itself) + [id])
  {
    var before, after := HeldBy(defs[..i], apps), HeldBy(defs[..i + 1], apps);
    assert defs[..i + 1][..i] == defs[..i];
    if defs[i].route in apps {
      var id := apps[defs[i].route].categoryId;
      assert after == before + [id];
      assert after[..|before|] == before;
    }
  }

  /** The group new rows of the module join. */
  function Target(s: Store, def: CategoryDef): Id
    requires def.apps != []
  {
    if def.apps[0].route in s.apps then s.apps[def.apps[0].route].categoryId
    else NavigationSpec.EnsureCategory(s, def).1
  }

  /** The store with that group in it. */
  function Opened(s: Store, def: CategoryDef): Store
    requires def.apps != []
  {
    if def.apps[0].route in s.apps then s else NavigationSpec.EnsureCategory(s, def).0
  }
}
