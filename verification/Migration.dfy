/** Configuration migration over abstract TOML trees. */
module Migration {
  import opened Wrappers

  /** Scalars other than strings are told apart by a number. */
  datatype Value = Str(s: string) | Scalar(n: int) | Arr(items: seq<Value>) | Tab(fields: Table)

  type Table = map<string, Value>

  /** A file: a TOML document, or bytes that do not parse as one. */
  datatype Doc = Toml(table: Table) | Garbage(n: int)

  datatype Prepared = Prepared(main: Doc, advanced: Option<Doc>)

  // -------------------------------------------------------------- TOML editing

  /** table(): the named sub-table, a new one if there is none. */
  function SubTable(parent: Table, key: string): Result<Table> {
    if key !in parent then Ok(map[])
    else if parent[key].Tab? then Ok(parent[key].fields)
    else Err("expected a table")
  }

  function HasKey(parent: Table, key: string, inner: string): bool {
    key in parent && parent[key].Tab? && inner in parent[key].fields
  }

  /** merge(): an explicit destination value is reused only when equal. */
  function Merge(dest: Table, key: string, value: Value): Result<Table> {
    if key !in dest then Ok(dest[key := value])
    else if dest[key] == value then Ok(dest)
    else Err("conflicting explicit values")
  }

  /** Merge into nodes.<section> of the advanced document. */
  function MergeIn(advanced: Table, section: string, key: string, value: Value): Result<Table> {
    var nodes := SubTable(advanced, "nodes");
    if nodes.Err? then nodes
    else
      var dest := SubTable(nodes.value, section);
      if dest.Err? then dest
      else
        var merged := Merge(dest.value, key, value);
        if merged.Err? then merged
        else Ok(advanced["nodes" := Tab(nodes.value[section := Tab(merged.value)])])
  }

  predicate Agree(a: Table, b: Table) {
    forall k :: k in a && k in b ==> a[k] == b[k]
  }

  /** All settings of `part` moved into nodes.<section>; nothing is created when there
      is none to move. */
  function Overlay(advanced: Table, section: string, part: Table): Result<Table> {
    if part == map[] then Ok(advanced)
    else
      var nodes := SubTable(advanced, "nodes");
      if nodes.Err? then nodes
      else
        var dest := SubTable(nodes.value, section);
        if dest.Err? then dest
        else if !Agree(dest.value, part) then Err("conflicting explicit values")
        else Ok(advanced["nodes" := Tab(nodes.value[section := Tab(dest.value + part)])])
  }

  const FETCH_KEYS: seq<string> := ["interval", "timeout", "retries"]
  const REFINE_KEYS: seq<string> := ["exclude_pattern", "rename", "strip_emoji", "max_tag_length"]

  function Only(t: Table, keys: seq<string>): (r: Table)
    ensures forall k :: k in r <==> k in t && k in keys
    ensures forall k :: k in r ==> r[k] == t[k]
  {
    map k | k in t && k in keys :: t[k]
  }

  // -------------------------------------------------------------------- prepare

  predicate Marked(main: Table) {
    HasKey(main, "nodes", "sources")
  }

  predicate Legacy(main: Table, legacyDefault: bool) {
    (legacyDefault && !Marked(main)) || "subscription" in main || HasKey(main, "nodes", "list")
  }

  predicate AllStrings(items: seq<Value>) {
    forall v :: v in items ==> v.Str?
  }

  /** nodes.sources as the legacy list plus the subscription URL. */
  function Sources(nodes: Table, subscription: Table): Result<Value> {
    if "list" in nodes && !nodes["list"].Arr? then Err("nodes.list: expected an array")
    else
      var list := if "list" in nodes then nodes["list"].items else [];
      if !AllStrings(list) then Err("nodes.list: expected strings")
      else if "url" !in subscription then Ok(Arr(list))
      else if !subscription["url"].Str? then Err("subscription.url: expected a string")
      else
        var url := subscription["url"];
        Ok(Arr(if url.s != "" && url !in list then list + [url] else list))
  }

  /** The new main document, from the old one and its subscription table. */
  function NewMain(main: Table, subscription: Table): Result<Table> {
    var rest := main - {"subscription"};
    var nodes := SubTable(rest, "nodes");
    if nodes.Err? then nodes
    else
      var sources := Sources(nodes.value, subscription);
      if sources.Err? then Err(sources.message)
      else
        var merged := Merge(nodes.value - {"list"}, "sources", sources.value);
        if merged.Err? then merged
        else
          var withNodes := rest["nodes" := Tab(merged.value)];
          var apps := SubTable(withNodes, "apps");
          if apps.Err? then apps
          else
            var mode := if "mode" in apps.value then apps.value else apps.value["mode" := Str("whitelist")];
            Ok(withNodes["apps" := Tab(mode)])
  }

  /** The three groups of settings a subscription moves to the advanced file. */
  datatype Parts = Parts(fetch: Table, refine: Table, nested: Table)

  function PartsOf(subscription: Table): Result<Parts> {
    if "refine" in subscription && !subscription["refine"].Tab? then Err("subscription.refine: expected a table")
    else if exists k :: k in subscription && k != "url" && k != "refine" && k !in FETCH_KEYS && k !in REFINE_KEYS
    then Err("unsupported legacy field")
    else Ok(Parts(Only(subscription, FETCH_KEYS), Only(subscription, REFINE_KEYS),
                  if "refine" in subscription then subscription["refine"].fields else map[]))
  }

  predicate Empty(p: Parts) {
    p.fetch == map[] && p.refine == map[] && p.nested == map[]
  }

  function NewAdvanced(advanced: Table, p: Parts): Result<Table> {
    var a := Overlay(advanced, "fetch", p.fetch);
    if a.Err? then a
    else
      var b := Overlay(a.value, "refine", p.refine);
      if b.Err? then b else Overlay(b.value, "refine", p.nested)
  }

  predicate Parses(d: Option<Doc>) {
    d.Some? ==> d.value.Toml?
  }

  function TableOf(d: Option<Doc>): Table
    requires Parses(d)
  {
    if d.Some? then d.value.table else map[]
  }

  function Subscription(main: Table): Result<Table> {
    SubTable(main, "subscription")
  }

  /** prepare(): None for files that are already current. */
  function Prepare(main: Doc, advanced: Option<Doc>, legacyDefault: bool): Result<Option<Prepared>> {
    if main.Garbage? || !Parses(advanced) then Err("invalid TOML")
    else if !Legacy(main.table, legacyDefault) then Ok(None)
    else
      var subscription := Subscription(main.table);
      if subscription.Err? then Err(subscription.message)
      else
        var newMain := NewMain(main.table, subscription.value);
        var parts := PartsOf(subscription.value);
        if newMain.Err? || parts.Err? then Err("prepare")
        else
          var newAdvanced := NewAdvanced(TableOf(advanced), parts.value);
          if newAdvanced.Err? then Err("prepare")
          else Ok(Some(Prepared(Toml(newMain.value),
                                if Empty(parts.value) then advanced else Some(Toml(newAdvanced.value)))))
  }

  // -------------------------------------------------------------- the Rust code

  /** One key merged, and the keys merged so far. */
  lemma OverlayStep(advanced: Table, section: string, part: Table, key: string, value: Value)
    requires key !in part
    ensures var before := Overlay(advanced, section, part); var after := Overlay(advanced, section, part[key := value]);
            if before.Err? then after.Err?
            else
              var merged := MergeIn(before.value, section, key, value);
              (merged.Ok? <==> after.Ok?) && (merged.Ok? ==> merged == after)
  {
    var nodes := SubTable(advanced, "nodes");
    if nodes.Ok? && SubTable(nodes.value, section).Ok? {
      var dest := SubTable(nodes.value, section).value;
      assert Agree(dest, part[key := value]) <==> Agree(dest, part) && (key in dest ==> dest[key] == value);
      if Agree(dest, part) {
        var so := dest + part;
        MergedTables(dest, part, key, value);
        if part == map[] {
          assert so == dest;
        } else {
          var now := Overlay(advanced, section, part).value;
          assert SubTable(now, "nodes") == Ok(nodes.value[section := Tab(so)]);
          assert SubTable(nodes.value[section := Tab(so)], section) == Ok(so);
          ReplaceTwice(nodes.value, section, Tab(so), Tab(dest + part[key := value]));
          ReplaceTwice(advanced, "nodes", now["nodes"], Tab(nodes.value[section := Tab(dest + part[key := value])]));
        }
      }
    }
  }

  lemma MergedTables(dest: Table, part: Table, key: string, value: Value)
    requires key !in part
    ensures var so := dest + part;
            && (key in so <==> key in dest)
            && (key in dest ==> so[key] == dest[key])
            && (key in dest && dest[key] == value ==> so == dest + part[key := value])
            && (key !in dest ==> so[key := value] == dest + part[key := value])
  {
    var so, then_ := dest + part, dest + part[key := value];
    assert forall k :: k in then_ <==> k in so || k == key;
  }

  lemma ReplaceTwice(t: Table, key: string, a: Value, b: Value)
    ensures t[key := a][key := b] == t[key := b]
  {
  }

  /** The same outcome: both fail, or both succeed with the same value. */
  ghost predicate Same<T>(a: Result<T>, b: Result<T>) {
    (a.Ok? <==> b.Ok?) && (a.Ok? ==> a == b)
  }

  ghost predicate Distinct(keys: seq<string>) {
    forall i, j :: 0 <= i < j < |keys| ==> keys[i] != keys[j]
  }

  lemma OnlyNext(t: Table, keys: seq<string>, i: nat)
    requires i < |keys| && Distinct(keys)
    ensures keys[i] !in Only(t, keys[..i])
    ensures keys[i] in t ==> Only(t, keys[..i + 1]) == Only(t, keys[..i])[keys[i] := t[keys[i]]]
    ensures keys[i] !in t ==> Only(t, keys[..i + 1]) == Only(t, keys[..i])
  {
    assert keys[..i + 1] == keys[..i] + [keys[i]];
  }

  /** The loop over the fixed keys of one section. */
  method MoveKeys(advanced: Table, subscription: Table, section: string, keys: seq<string>)
      returns (r: Result<Table>, moved: bool)
    requires Distinct(keys)
    ensures Same(r, Overlay(advanced, section, Only(subscription, keys)))
    ensures r.Ok? ==> moved == (Only(subscription, keys) != map[])
  {
    hide Overlay, MergeIn, Only;
    r, moved := Ok(advanced), false;
    OverlayNothing(advanced, section, Only(subscription, keys[..0]));
    for i := 0 to |keys|
      invariant r.Ok? && Overlay(advanced, section, Only(subscription, keys[..i])) == r
      invariant moved == (Only(subscription, keys[..i]) != map[])
    {
      OnlyNext(subscription, keys, i);
      if keys[i] in subscription {
        ghost var part := Only(subscription, keys[..i]);
        OverlayStep(advanced, section, part, keys[i], subscription[keys[i]]);
        assert keys[i] in part[keys[i] := subscription[keys[i]]];
        r := MergeIn(r.value, section, keys[i], subscription[keys[i]]);
        if r.Err? {
          OverlayFails(advanced, section, subscription, keys, i + 1);
          return;
        }
        moved := true;
      }
    }
    assert keys[..|keys|] == keys;
  }

  lemma OverlayNothing(advanced: Table, section: string, part: Table)
    requires forall k :: k !in part
    ensures part == map[] && Overlay(advanced, section, part) == Ok(advanced)
  {
  }

  /** A conflict on some of the settings is a conflict on all of them. */
  lemma OverlayFails(advanced: Table, section: string, t: Table, keys: seq<string>, i: nat)
    requires i <= |keys| && Overlay(advanced, section, Only(t, keys[..i])).Err?
    ensures Overlay(advanced, section, Only(t, keys)).Err?
  {
    var some, all := Only(t, keys[..i]), Only(t, keys);
    assert forall k :: k in some ==> k in all && all[k] == some[k];
    assert all != map[] by {
      var k :| k in some;
      assert k in all;
    }
  }

  /** The loop over the nested refine table, in whatever order its keys come. */
  method MoveNested(advanced: Table, nested: Table) returns (r: Result<Table>, moved: bool)
    ensures Same(r, Overlay(advanced, "refine", nested))
    ensures r.Ok? ==> moved == (nested != map[])
  {
    hide Overlay, MergeIn;
    r, moved := Ok(advanced), false;
    var left := nested.Keys;
    OverlayNothing(advanced, "refine", Without(nested, left));
    while left != {}
      invariant left <= nested.Keys && r.Ok?
      invariant Overlay(advanced, "refine", Without(nested, left)) == r
      invariant moved == (Without(nested, left) != map[])
      decreases left
    {
      var key :| key in left;
      ghost var part := Without(nested, left);
      OverlayStep(advanced, "refine", part, key, nested[key]);
      assert Without(nested, left - {key}) == part[key := nested[key]];
      assert key in Without(nested, left - {key});
      r := MergeIn(r.value, "refine", key, nested[key]);
      left := left - {key};
      if r.Err? {
        PartFails(advanced, nested, left);
        return;
      }
      moved := true;
    }
    assert Without(nested, {}) == nested;
  }

  function Without(t: Table, keys: set<string>): Table {
    t - keys
  }

  lemma PartFails(advanced: Table, nested: Table, left: set<string>)
    requires Overlay(advanced, "refine", Without(nested, left)).Err?
    ensures Overlay(advanced, "refine", nested).Err?
  {
    var some := Without(nested, left);
    assert forall k :: k in some ==> k in nested && nested[k] == some[k];
    assert nested != map[] by {
      var k :| k in some;
      assert k in nested;
    }
  }

  /** prepare(). */
  method PrepareDocs(main: Doc, advanced: Option<Doc>, legacyDefault: bool) returns (r: Result<Option<Prepared>>)
    ensures Same(r, Prepare(main, advanced, legacyDefault))
  {
    hide NewMain, Overlay, PartsOf;
    if main.Garbage? || !Parses(advanced) {
      return Err("invalid TOML");
    }
    if !Legacy(main.table, legacyDefault) {
      return Ok(None);
    }
    var subscription := Subscription(main.table);
    if subscription.Err? {
      return Err(subscription.message);
    }
    var newMain := NewMain(main.table, subscription.value);
    var parts := PartsOf(subscription.value);
    if newMain.Err? || parts.Err? {
      return Err("prepare");
    }
    PartsAre(subscription.value);
    var a, moved := MoveKeys(TableOf(advanced), subscription.value, "fetch", FETCH_KEYS);
    if a.Err? {
      return Err("prepare");
    }
    var movedAdvanced := moved;
    a, moved := MoveKeys(a.value, subscription.value, "refine", REFINE_KEYS);
    if a.Err? {
      return Err("prepare");
    }
    movedAdvanced := movedAdvanced || moved;
    a, moved := MoveNested(a.value, parts.value.nested);
    if a.Err? {
      return Err("prepare");
    }
    movedAdvanced := movedAdvanced || moved;
    return Ok(Some(Prepared(Toml(newMain.value), if movedAdvanced then Some(Toml(a.value)) else advanced)));
  }

  lemma PartsAre(subscription: Table)
    ensures var p := PartsOf(subscription);
            p.Ok? ==> p.value.fetch == Only(subscription, FETCH_KEYS) && p.value.refine == Only(subscription, REFINE_KEYS)
    ensures Distinct(FETCH_KEYS) && Distinct(REFINE_KEYS)
  {
  }

  // -------------------------------------------------------------- what it keeps

  /** nodes.<section> already holds every setting of part. */
  ghost predicate Holds(advanced: Table, section: string, part: Table) {
    part != map[] ==>
      && HasKey(advanced, "nodes", section) && advanced["nodes"].fields[section].Tab?
      && forall k :: k in part ==>
           k in advanced["nodes"].fields[section].fields && advanced["nodes"].fields[section].fields[k] == part[k]
  }

  lemma OverlayHolds(advanced: Table, section: string, part: Table)
    requires Overlay(advanced, section, part).Ok?
    ensures Holds(Overlay(advanced, section, part).value, section, part)
  {
  }

  /** No setting is ever overwritten. */
  lemma OverlayKeeps(advanced: Table, section: string, part: Table, section': string, part': Table)
    requires Overlay(advanced, section, part).Ok? && Holds(advanced, section', part')
    ensures Holds(Overlay(advanced, section, part).value, section', part')
  {
  }

  /** Settings already in place are not written again. */
  lemma OverlayAgain(advanced: Table, section: string, part: Table)
    requires Holds(advanced, section, part)
    ensures Overlay(advanced, section, part) == Ok(advanced)
  {
    if part != map[] {
      var nodes := advanced["nodes"].fields;
      var dest := nodes[section].fields;
      assert dest + part == dest;
      assert nodes[section := Tab(dest)] == nodes;
      assert advanced["nodes" := Tab(nodes)] == advanced;
    }
  }

  lemma AdvancedAgain(advanced: Table, p: Parts)
    requires NewAdvanced(advanced, p).Ok?
    ensures NewAdvanced(NewAdvanced(advanced, p).value, p) == NewAdvanced(advanced, p)
  {
    hide Overlay, Holds;
    var a := Overlay(advanced, "fetch", p.fetch).value;
    var b := Overlay(a, "refine", p.refine).value;
    var c := Overlay(b, "refine", p.nested).value;
    OverlayHolds(advanced, "fetch", p.fetch);
    OverlayKeeps(a, "refine", p.refine, "fetch", p.fetch);
    OverlayKeeps(b, "refine", p.nested, "fetch", p.fetch);
    OverlayHolds(a, "refine", p.refine);
    OverlayKeeps(b, "refine", p.nested, "refine", p.refine);
    OverlayHolds(b, "refine", p.nested);
    OverlayAgain(c, "fetch", p.fetch);
    OverlayAgain(c, "refine", p.refine);
    OverlayAgain(c, "refine", p.nested);
  }

  /** Preparing again after the advanced file was published gives the same result. */
  lemma PrepareAgain(main: Doc, advanced: Option<Doc>, legacyDefault: bool)
    requires Prepare(main, advanced, legacyDefault).Ok? && Prepare(main, advanced, legacyDefault).value.Some?
    ensures var r := Prepare(main, advanced, legacyDefault); Prepare(main, r.value.value.advanced, legacyDefault) == r
  {
    hide NewAdvanced, NewMain, PartsOf;
    var p := PartsOf(Subscription(main.table).value).value;
    AdvancedAgain(TableOf(advanced), p);
  }

  lemma NewMainCurrent(main: Table, subscription: Table)
    requires NewMain(main, subscription).Ok?
    ensures var m := NewMain(main, subscription).value;
            Marked(m) && "subscription" !in m && !HasKey(m, "nodes", "list")
  {
  }

  /** A prepared main document is current: with any advanced file that parses, under
      either default, there is nothing left to do. */
  lemma PreparedIsCurrent(main: Doc, advanced: Option<Doc>, legacyDefault: bool, next: Option<Doc>, nextDefault: bool)
    requires Prepare(main, advanced, legacyDefault).Ok? && Prepare(main, advanced, legacyDefault).value.Some?
    requires Parses(next)
    ensures Prepare(Prepare(main, advanced, legacyDefault).value.value.main, next, nextDefault) == Ok(None)
    ensures Parses(Prepare(main, advanced, legacyDefault).value.value.advanced)
  {
    NewMainCurrent(main.table, Subscription(main.table).value);
    hide NewMain, NewAdvanced, PartsOf;
  }

  function At(t: Table, key: string, inner: string): Option<Value> {
    if HasKey(t, key, inner) then Some(t[key].fields[inner]) else None
  }

  /** Nothing the user wrote in the main file is lost or changed: the old list leads
      the sources and the URL follows, other keys stay, and an explicit mode stands. */
  lemma MainKept(main: Table, subscription: Table)
    requires NewMain(main, subscription).Ok?
    ensures var m := NewMain(main, subscription).value;
            && (forall k :: k != "subscription" && k != "nodes" && k != "apps" ==>
                  (k in m <==> k in main) && (k in m ==> m[k] == main[k]))
            && (forall k :: k != "list" && k != "sources" ==> At(m, "nodes", k) == At(main, "nodes", k))
            && (forall k :: k != "mode" ==> At(m, "apps", k) == At(main, "apps", k))
            && At(m, "apps", "mode") ==
                 (if HasKey(main, "apps", "mode") then At(main, "apps", "mode") else Some(Str("whitelist")))
  {
  }

  lemma SourcesAreStrings(nodes: Table, subscription: Table)
    requires Sources(nodes, subscription).Ok?
    ensures Sources(nodes, subscription).value.Arr? && AllStrings(Sources(nodes, subscription).value.items)
  {
  }

  lemma SourcesKept(main: Table, subscription: Table)
    requires NewMain(main, subscription).Ok?
    ensures var m := NewMain(main, subscription).value;
            var list := if HasKey(main, "nodes", "list") then main["nodes"].fields["list"] else Arr([]);
            && list.Arr? && Marked(m) && m["nodes"].fields["sources"].Arr?
            && list.items <= m["nodes"].fields["sources"].items
            && (forall v :: v in m["nodes"].fields["sources"].items ==>
                  v in list.items || ("url" in subscription && v == subscription["url"]))
            && ("url" in subscription && subscription["url"] != Str("") ==>
                  subscription["url"] in m["nodes"].fields["sources"].items)
            && AllStrings(m["nodes"].fields["sources"].items)
  {
    SourcesAreStrings(SubTable(main - {"subscription"}, "nodes").value, subscription);
  }

  /** Every setting of the old subscription arrives in the advanced file, and every
      setting that was there stays. */
  lemma AdvancedKept(advanced: Table, p: Parts, section: string, part: Table)
    requires NewAdvanced(advanced, p).Ok? && Holds(advanced, section, part)
    ensures var a := NewAdvanced(advanced, p).value;
            && Holds(a, "fetch", p.fetch) && Holds(a, "refine", p.refine) && Holds(a, "refine", p.nested)
            && Holds(a, section, part)
            && forall k :: k != "nodes" ==> (k in a <==> k in advanced) && (k in a ==> a[k] == advanced[k])
  {
    var a := Overlay(advanced, "fetch", p.fetch).value;
    var b := Overlay(a, "refine", p.refine).value;
    OtherKeysKept(advanced, "fetch", p.fetch);
    OtherKeysKept(a, "refine", p.refine);
    OtherKeysKept(b, "refine", p.nested);
    hide Overlay, Holds;
    OverlayHolds(advanced, "fetch", p.fetch);
    OverlayKeeps(a, "refine", p.refine, "fetch", p.fetch);
    OverlayKeeps(b, "refine", p.nested, "fetch", p.fetch);
    OverlayHolds(a, "refine", p.refine);
    OverlayKeeps(b, "refine", p.nested, "refine", p.refine);
    OverlayHolds(b, "refine", p.nested);
    OverlayKeeps(advanced, "fetch", p.fetch, section, part);
    OverlayKeeps(a, "refine", p.refine, section, part);
    OverlayKeeps(b, "refine", p.nested, section, part);
  }

  lemma OtherKeysKept(advanced: Table, section: string, part: Table)
    requires Overlay(advanced, section, part).Ok?
    ensures var a := Overlay(advanced, section, part).value;
            forall k :: k != "nodes" ==> (k in a <==> k in advanced) && (k in a ==> a[k] == advanced[k])
  {
  }

  /** Each subscription key other than the URL is in exactly one of the moved groups. */
  lemma PartsCover(subscription: Table, k: string)
    requires PartsOf(subscription).Ok? && k in subscription && k != "url" && k != "refine"
    ensures var p := PartsOf(subscription).value;
            (k in p.fetch && p.fetch[k] == subscription[k]) != (k in p.refine && p.refine[k] == subscription[k])
  {
    KeysApart(k);
  }

  lemma KeysApart(k: string)
    ensures !(k in FETCH_KEYS && k in REFINE_KEYS)
  {
    assert forall i, j :: 0 <= i < |FETCH_KEYS| && 0 <= j < |REFINE_KEYS| ==> FETCH_KEYS[i] != REFINE_KEYS[j];
  }

  // ------------------------------------------------------- when it succeeds

  predicate NoLegacy(main: Table, legacyDefault: bool) {
    "subscription" !in main && !HasKey(main, "nodes", "list") && (legacyDefault ==> Marked(main))
  }

  /** Files that parse are left alone exactly if they carry nothing legacy, and a prepared
      main file carries nothing legacy. */
  lemma NothingLegacyLeft(main: Doc, advanced: Option<Doc>, legacyDefault: bool)
    ensures Prepare(main, advanced, legacyDefault) == Ok(None) <==>
              main.Toml? && Parses(advanced) && NoLegacy(main.table, legacyDefault)
    ensures var r := Prepare(main, advanced, legacyDefault);
            r.Ok? && r.value.Some? ==> r.value.value.main.Toml? && NoLegacy(r.value.value.main.table, true)
  {
    var r := Prepare(main, advanced, legacyDefault);
    if r.Ok? && r.value.Some? {
      NewMainCurrent(main.table, Subscription(main.table).value);
    }
    hide NewMain, NewAdvanced, PartsOf;
  }

  /** A subscription table of known settings, none of them given twice. */
  predicate PlainSubscription(sub: Table) {
    && ("url" in sub ==> sub["url"].Str?)
    && ("refine" in sub ==> sub["refine"].Tab? && forall k :: k in sub["refine"].fields ==> k !in sub)
    && forall k :: k in sub ==> k == "url" || k == "refine" || k in FETCH_KEYS || k in REFINE_KEYS
  }

  /** A main file whose nodes and apps are tables, with a list of strings and no sources. */
  predicate PlainMain(main: Table) {
    && ("subscription" in main ==> main["subscription"].Tab? && PlainSubscription(main["subscription"].fields))
    && ("nodes" in main ==>
          && main["nodes"].Tab? && "sources" !in main["nodes"].fields
          && ("list" in main["nodes"].fields ==>
                main["nodes"].fields["list"].Arr? && AllStrings(main["nodes"].fields["list"].items)))
    && ("apps" in main ==> main["apps"].Tab?)
  }

  lemma PlainPartsMove(advanced: Table, sub: Table)
    requires "nodes" !in advanced && PlainSubscription(sub)
    ensures PartsOf(sub).Ok? && NewAdvanced(advanced, PartsOf(sub).value).Ok?
  {
    var p := PartsOf(sub).value;
    var a := Overlay(advanced, "fetch", p.fetch).value;
    assert forall k :: k in p.nested ==> k !in p.refine;
    assert Overlay(a, "refine", p.refine).Ok?;
  }

  /** Migration succeeds on every such file beside an advanced file without nodes. */
  lemma PlainFilesMigrate(main: Table, advanced: Option<Doc>, legacyDefault: bool)
    requires PlainMain(main) && Parses(advanced) && "nodes" !in TableOf(advanced)
    ensures Prepare(Toml(main), advanced, legacyDefault).Ok?
    ensures var r := Prepare(Toml(main), advanced, legacyDefault);
            NoLegacy(main, legacyDefault) || r.value.Some?
  {
    var sub := if "subscription" in main then main["subscription"].fields else map[];
    PlainPartsMove(TableOf(advanced), sub);
    hide NewAdvanced, PartsOf;
    assert NewMain(main, sub).Ok?;
  }
}
