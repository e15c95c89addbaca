/**
 * The dashboard's widget store: a JavaScript `Map` from widget id to widget
 * record, kept in insertion order, with the counter that names new widgets,
 * the shallow configuration merge, the drag-and-drop reorder, the snapshot
 * export/import, and the notes list kept in a widget's configuration.
 *
 * The `Map` is an insertion-ordered sequence of keys plus a map from key to
 * record (`Table`). Every operation is first a function on `Store` values;
 * the `Dashboard` class changes its fields as the source does and promises
 * to end in the state that function describes.
 */
module WidgetStore {
  import opened Wrappers
  import opened Text

  /** JSON values, as they appear in widget configurations and snapshots. */
  datatype Value =
    | Null
    | Bool(b: bool)
    | Num(n: int)
    | Str(s: string)
    | Arr(items: seq<Value>)
    | Obj(fields: map<string, Value>)

  /** JavaScript truthiness of a possibly missing property (`undefined` is `None`). */
  predicate Truthy(v: Option<Value>) {
    match v
    case None => false
    case Some(Null) => false
    case Some(Bool(b)) => b
    case Some(Num(n)) => n != 0
    case Some(Str(s)) => s != []
    case Some(_) => true
  }

  datatype Widget = Widget(id: string, widgetType: string, config: map<string, Value>, data: Value)

  // ---------------------------------------------------------------------
  // The insertion-ordered map
  // ---------------------------------------------------------------------

  function Members(s: seq<string>): set<string> {
    set k | k in s
  }

  predicate NoDups(s: seq<string>) {
    forall i, j :: 0 <= i < j < |s| ==> s[i] != s[j]
  }

  lemma MembersSnoc(s: seq<string>, x: string)
    ensures Members(s + [x]) == Members(s) + {x}
  {
    assert forall k :: k in s + [x] <==> k in s || k == x;
  }

  lemma NoDupsSnoc(s: seq<string>, x: string)
    requires NoDups(s) && x !in Members(s)
    ensures NoDups(s + [x])
  {
  }

  /** A `Map`: `order` lists each key once, in insertion order. */
  datatype Table = Table(order: seq<string>, rows: map<string, Widget>)

  predicate TableValid(t: Table) {
    NoDups(t.order) && Members(t.order) == t.rows.Keys
  }

  const EmptyTable := Table([], map[])

  /** `Map.prototype.set`: a new key goes last, an existing key keeps its place. */
  function Put(t: Table, key: string, w: Widget): (r: Table)
    ensures r.rows == t.rows[key := w]
  {
    if key in t.rows then Table(t.order, t.rows[key := w]) else Table(t.order + [key], t.rows[key := w])
  }

  lemma PutKeepsValid(t: Table, key: string, w: Widget)
    requires TableValid(t)
    ensures TableValid(Put(t, key, w))
    ensures Put(t, key, w).order == if key in t.rows then t.order else t.order + [key]
  {
    if key !in t.rows {
      MembersSnoc(t.order, key);
      NoDupsSnoc(t.order, key);
    }
  }

  /** `s` with every occurrence of `key` removed. */
  function Without(s: seq<string>, key: string): (r: seq<string>)
    ensures Members(r) == Members(s) - {key}
    ensures |r| <= |s|
  {
    if s == [] then []
    else
      var p, last := s[..|s| - 1], s[|s| - 1];
      assert s == p + [last];
      MembersSnoc(p, last);
      MembersSnoc(Without(p, key), last);
      if last == key then Without(p, key) else Without(p, key) + [last]
  }

  lemma {:induction false} WithoutAbsent(s: seq<string>, key: string)
    requires key !in s
    ensures Without(s, key) == s
  {
    if s != [] {
      assert s == s[..|s| - 1] + [s[|s| - 1]];
      WithoutAbsent(s[..|s| - 1], key);
    }
  }

  lemma {:induction false} WithoutKeepsNoDups(s: seq<string>, key: string)
    requires NoDups(s)
    ensures NoDups(Without(s, key))
  {
    if s != [] {
      var p, last := s[..|s| - 1], s[|s| - 1];
      assert s == p + [last];
      WithoutKeepsNoDups(p, key);
      assert last !in Members(p);
      if last != key {
        NoDupsSnoc(Without(p, key), last);
      }
    }
  }

  /** Only the keys `Known` is given, and how many of them, decide what it keeps. */
  lemma {:induction false} KnownSameKeys(ids: seq<string>, a: set<string>, b: set<string>)
    requires a * Members(ids) == b * Members(ids)
    ensures Known(ids, a) == Known(ids, b)
  {
    if ids != [] {
      var p := ids[..|ids| - 1];
      assert ids == p + [ids[|ids| - 1]];
      MembersSnoc(p, ids[|ids| - 1]);
      assert a * Members(p) == (a * Members(ids)) * Members(p);
      assert b * Members(p) == (b * Members(ids)) * Members(p);
      KnownSameKeys(p, a, b);
      var id := ids[|ids| - 1];
      assert id in Members(ids);
      assert id in a <==> id in a * Members(ids);
    }
  }

  /** Removing a key keeps every other key, in the order it had: it filters the sequence. */
  lemma {:induction false} WithoutKeepsOrder(s: seq<string>, key: string)
    ensures Without(s, key) == Known(s, Members(s) - {key})
  {
    if s != [] {
      var p, last := s[..|s| - 1], s[|s| - 1];
      assert s == p + [last];
      MembersSnoc(p, last);
      WithoutKeepsOrder(p, key);
      assert (Members(s) - {key}) * Members(p) == Members(p) - {key};
      assert (Members(p) - {key}) * Members(p) == Members(p) - {key};
      KnownSameKeys(p, Members(s) - {key}, Members(p) - {key});
    }
  }

  /** `Map.prototype.delete`. */
  function Delete(t: Table, key: string): (r: Table)
    ensures key !in r.rows && r.rows == t.rows - {key}
  {
    Table(Without(t.order, key), t.rows - {key})
  }

  lemma DeleteKeepsValid(t: Table, key: string)
    requires TableValid(t)
    ensures TableValid(Delete(t, key))
  {
    WithoutKeepsNoDups(t.order, key);
  }

  // ---------------------------------------------------------------------
  // The store
  // ---------------------------------------------------------------------

  datatype Store = Store(table: Table, nextWidgetId: int)

  /** Every record is filed under its own id. */
  predicate IdsMatch(t: Table) {
    forall k :: k in t.rows ==> t.rows[k].id == k
  }

  predicate StoreValid(s: Store) {
    TableValid(s.table) && IdsMatch(s.table)
  }

  /** The id of the widget created from counter value `n`: `widget-` and `n` in decimal. */
  function WidgetKey(n: int): (key: string)
    ensures |key| > 7 && key[..7] == "widget-"
  {
    "widget-" + IntToString(n)
  }

  lemma WidgetKeyInjective(a: int, b: int)
    ensures WidgetKey(a) == WidgetKey(b) ==> a == b
  {
    if WidgetKey(a) == WidgetKey(b) {
      assert IntToString(a) == WidgetKey(a)[7..] && IntToString(b) == WidgetKey(b)[7..];
      IntToStringInjective(a, b);
    }
  }

  /** No key the counter will still hand out is taken. */
  ghost predicate Fresh(s: Store) {
    forall n: int :: n >= s.nextWidgetId ==> WidgetKey(n) !in s.table.rows
  }

  const InitialStore := Store(EmptyTable, 1)

  /** `addWidget`: the widget gets the key made from the old counter, and the counter moves on by one. */
  function AddWidgetStep(s: Store, widgetType: string, config: map<string, Value>): (r: Store)
    ensures r.nextWidgetId == s.nextWidgetId + 1
    ensures r.table.rows.Keys == s.table.rows.Keys + {WidgetKey(s.nextWidgetId)}
  {
    var key := WidgetKey(s.nextWidgetId);
    Store(Put(s.table, key, Widget(key, widgetType, config, Null)), s.nextWidgetId + 1)
  }

  lemma AddWidgetEffect(s: Store, widgetType: string, config: map<string, Value>)
    requires StoreValid(s)
    ensures var r, key := AddWidgetStep(s, widgetType, config), WidgetKey(s.nextWidgetId);
      StoreValid(r) && r.nextWidgetId == s.nextWidgetId + 1 &&
      r.table.rows == s.table.rows[key := Widget(key, widgetType, config, Null)] &&
      r.table.order == (if key in s.table.rows then s.table.order else s.table.order + [key])
  {
    PutKeepsValid(s.table, WidgetKey(s.nextWidgetId), Widget(WidgetKey(s.nextWidgetId), widgetType, config, Null));
  }

  /** While the counter is ahead of every key, each added widget is new: it goes last and the store grows by one. */
  lemma AddWidgetFresh(s: Store, widgetType: string, config: map<string, Value>)
    requires StoreValid(s) && Fresh(s)
    ensures var r := AddWidgetStep(s, widgetType, config);
      Fresh(r) && r.table.order == s.table.order + [WidgetKey(s.nextWidgetId)] &&
      |r.table.rows| == |s.table.rows| + 1
  {
    var key := WidgetKey(s.nextWidgetId);
    var r := AddWidgetStep(s, widgetType, config);
    assert key !in s.table.rows;
    forall n: int | n >= r.nextWidgetId ensures WidgetKey(n) !in r.table.rows {
      WidgetKeyInjective(n, s.nextWidgetId);
    }
  }

  /** `removeWidget`: `Map.prototype.delete`. */
  function RemoveWidgetStep(s: Store, widgetId: string): (r: Store)
    ensures r.nextWidgetId == s.nextWidgetId && r.table.rows.Keys == s.table.rows.Keys - {widgetId}
  {
    Store(Delete(s.table, widgetId), s.nextWidgetId)
  }

  lemma RemoveWidgetEffect(s: Store, widgetId: string)
    requires StoreValid(s)
    ensures var r := RemoveWidgetStep(s, widgetId);
      StoreValid(r) && r.nextWidgetId == s.nextWidgetId && (Fresh(s) ==> Fresh(r))
    ensures var r := RemoveWidgetStep(s, widgetId);
      widgetId !in r.table.rows && r.table.rows == s.table.rows - {widgetId} &&
      r.table.order == Known(s.table.order, Members(s.table.order) - {widgetId}) &&
      (widgetId !in s.table.rows ==> r == s)
  {
    DeleteKeepsValid(s.table, widgetId);
    WithoutKeepsOrder(s.table.order, widgetId);
    if widgetId !in s.table.rows {
      WithoutAbsent(s.table.order, widgetId);
    }
  }

  /** Removing the widget just added gives back the table as it was before. */
  lemma RemoveUndoesAdd(s: Store, widgetType: string, config: map<string, Value>)
    requires StoreValid(s) && Fresh(s)
    ensures RemoveWidgetStep(AddWidgetStep(s, widgetType, config), WidgetKey(s.nextWidgetId)).table == s.table
  {
    var key := WidgetKey(s.nextWidgetId);
    assert key !in s.table.rows;
    assert key !in s.table.order;
    WithoutAbsent(s.table.order, key);
    assert s.table.rows[key := Widget(key, widgetType, config, Null)] - {key} == s.table.rows;
  }

  // ---------------------------------------------------------------------
  // Configuration merge
  // ---------------------------------------------------------------------

  /** `{ ...current, ...update }`: every key of either, the new value winning. */
  function Merge(current: map<string, Value>, update: map<string, Value>): (r: map<string, Value>)
    ensures r.Keys == current.Keys + update.Keys
    ensures forall k :: k in update ==> r[k] == update[k]
    ensures forall k :: k in current && k !in update ==> r[k] == current[k]
  {
    map k | k in current.Keys + update.Keys :: if k in update then update[k] else current[k]
  }

  /** Merging the same settings again changes nothing. */
  lemma MergeIdempotent(current: map<string, Value>, update: map<string, Value>)
    ensures Merge(Merge(current, update), update) == Merge(current, update)
  {
  }

  /** Two merges in a row are one merge with the merged settings. */
  lemma MergeCompose(c: map<string, Value>, a: map<string, Value>, b: map<string, Value>)
    ensures Merge(Merge(c, a), b) == Merge(c, Merge(a, b))
  {
  }

  lemma MergeEmpty(c: map<string, Value>)
    ensures Merge(c, map[]) == c
  {
  }

  /** `updateWidgetConfig`: merge into a known widget's configuration; an unknown id changes nothing. */
  function UpdateConfigStep(s: Store, widgetId: string, newConfig: map<string, Value>): (r: Store)
    ensures r.nextWidgetId == s.nextWidgetId && r.table.order == s.table.order
    ensures r.table.rows.Keys == s.table.rows.Keys
  {
    if widgetId in s.table.rows then
      var w := s.table.rows[widgetId];
      Store(Table(s.table.order, s.table.rows[widgetId := w.(config := Merge(w.config, newConfig))]), s.nextWidgetId)
    else s
  }

  lemma UpdateConfigEffect(s: Store, widgetId: string, newConfig: map<string, Value>)
    requires StoreValid(s)
    ensures var r := UpdateConfigStep(s, widgetId, newConfig);
      StoreValid(r) && (Fresh(s) ==> Fresh(r)) &&
      r.table.order == s.table.order && r.nextWidgetId == s.nextWidgetId &&
      r.table.rows.Keys == s.table.rows.Keys &&
      (forall k :: k in s.table.rows && k != widgetId ==> r.table.rows[k] == s.table.rows[k]) &&
      (widgetId in s.table.rows ==>
        r.table.rows[widgetId] == s.table.rows[widgetId].(config := Merge(s.table.rows[widgetId].config, newConfig)))
    ensures widgetId !in s.table.rows ==> UpdateConfigStep(s, widgetId, newConfig) == s
  {
  }

  /** Saving the same settings twice is the same as saving them once. */
  lemma UpdateConfigIdempotent(s: Store, widgetId: string, newConfig: map<string, Value>)
    ensures UpdateConfigStep(UpdateConfigStep(s, widgetId, newConfig), widgetId, newConfig)
         == UpdateConfigStep(s, widgetId, newConfig)
  {
    if widgetId in s.table.rows {
      var w := s.table.rows[widgetId];
      MergeIdempotent(w.config, newConfig);
      var r := UpdateConfigStep(s, widgetId, newConfig);
      assert r.table.rows[widgetId].config == Merge(w.config, newConfig);
      assert r.table.rows[widgetId := r.table.rows[widgetId].(config := Merge(Merge(w.config, newConfig), newConfig))]
          == r.table.rows;
    }
  }

  // ---------------------------------------------------------------------
  // Layout: rebuilding the map in the order the grid shows
  // ---------------------------------------------------------------------

  /** The `Map` that `saveLayout` builds: for each listed id the table knows, in list order, its record. */
  function Arrange(t: Table, ids: seq<string>): (r: Table)
    ensures r.rows.Keys <= t.rows.Keys
    ensures forall k :: k in r.rows ==> r.rows[k] == t.rows[k]
  {
    if ids == [] then EmptyTable
    else
      var r, id := Arrange(t, ids[..|ids| - 1]), ids[|ids| - 1];
      if id in t.rows then Put(r, id, t.rows[id]) else r
  }

  /** The listed ids the table knows, in list order. */
  function Known(ids: seq<string>, keys: set<string>): (r: seq<string>)
    ensures Members(r) == Members(ids) * keys
  {
    if ids == [] then []
    else
      var p, id := ids[..|ids| - 1], ids[|ids| - 1];
      assert ids == p + [id];
      MembersSnoc(p, id);
      MembersSnoc(Known(p, keys), id);
      if id in keys then Known(p, keys) + [id] else Known(p, keys)
  }

  /**
   * The rebuilt map holds exactly the listed ids that exist, each with its
   * record unchanged; when the list has no repeats, they come in list order.
   */
  lemma {:induction false} ArrangeSpec(t: Table, ids: seq<string>)
    ensures var r := Arrange(t, ids);
      TableValid(r) && r.rows.Keys == Members(ids) * t.rows.Keys &&
      (forall k :: k in r.rows ==> r.rows[k] == t.rows[k])
  {
    if ids != [] {
      var p, id := ids[..|ids| - 1], ids[|ids| - 1];
      assert ids == p + [id];
      MembersSnoc(p, id);
      ArrangeSpec(t, p);
      if id in t.rows {
        PutKeepsValid(Arrange(t, p), id, t.rows[id]);
      }
    }
  }

  /** With no repeats in the list, the rebuilt order is the list's known ids in list order. */
  lemma {:induction false} ArrangeOrder(t: Table, ids: seq<string>)
    requires NoDups(ids)
    ensures Arrange(t, ids).order == Known(ids, t.rows.Keys)
  {
    if ids != [] {
      var p, id := ids[..|ids| - 1], ids[|ids| - 1];
      assert ids == p + [id];
      assert NoDups(p);
      ArrangeOrder(t, p);
      if id in t.rows {
        ArrangeSpec(t, p);
        assert id !in Members(p);
      }
    }
  }

  lemma {:induction false} KnownAll(ids: seq<string>, keys: set<string>)
    requires Members(ids) <= keys
    ensures Known(ids, keys) == ids
  {
    if ids != [] {
      var p := ids[..|ids| - 1];
      assert ids == p + [ids[|ids| - 1]];
      KnownAll(p, keys);
    }
  }

  /** When the grid shows every widget once, a layout save only reorders: nothing is lost or changed. */
  lemma ArrangePermutation(t: Table, ids: seq<string>)
    requires TableValid(t) && NoDups(ids) && Members(ids) == t.rows.Keys
    ensures Arrange(t, ids) == Table(ids, t.rows)
  {
    ArrangeSpec(t, ids);
    ArrangeOrder(t, ids);
    KnownAll(ids, t.rows.Keys);
  }

  function SaveLayoutStep(s: Store, ids: seq<string>): (r: Store)
    ensures r.nextWidgetId == s.nextWidgetId && r.table.rows.Keys <= s.table.rows.Keys
  {
    Store(Arrange(s.table, ids), s.nextWidgetId)
  }

  lemma SaveLayoutEffect(s: Store, ids: seq<string>)
    requires StoreValid(s)
    ensures var r := SaveLayoutStep(s, ids);
      StoreValid(r) && (Fresh(s) ==> Fresh(r)) && r.nextWidgetId == s.nextWidgetId &&
      r.table.rows.Keys == Members(ids) * s.table.rows.Keys
  {
    ArrangeSpec(s.table, ids);
  }

  // ---------------------------------------------------------------------
  // Snapshots: saving, exporting and importing
  // ---------------------------------------------------------------------

  /** The part of a saved or exported configuration the dashboard reads back. */
  datatype Snapshot = Snapshot(widgets: seq<Widget>, nextWidgetId: Option<int>)

  /** The records of `order`, in that order (`Array.from(map.values())`). */
  function Values(order: seq<string>, rows: map<string, Widget>): (r: seq<Widget>)
    requires Members(order) <= rows.Keys
    ensures |r| == |order|
    ensures forall k :: 0 <= k < |r| ==> r[k] == rows[order[k]]
  {
    if order == [] then []
    else
      var p := order[..|order| - 1];
      assert Members(p) <= Members(order);
      Values(p, rows) + [rows[order[|order| - 1]]]
  }

  function Export(s: Store): (r: Snapshot)
    requires StoreValid(s)
    ensures |r.widgets| == |s.table.order| && r.nextWidgetId == Some(s.nextWidgetId)
    ensures forall k :: 0 <= k < |r.widgets| ==> r.widgets[k] == s.table.rows[s.table.order[k]]
  {
    Snapshot(Values(s.table.order, s.table.rows), Some(s.nextWidgetId))
  }

  /** The `Map` that setting each snapshot record under its own id builds. */
  function Load(ws: seq<Widget>): (r: Table)
    ensures ws != [] ==> ws[|ws| - 1].id in r.rows && r.rows[ws[|ws| - 1].id] == ws[|ws| - 1]
  {
    if ws == [] then EmptyTable
    else Put(Load(ws[..|ws| - 1]), ws[|ws| - 1].id, ws[|ws| - 1])
  }

  /** `config.nextWidgetId || 1`: a missing or zero counter restarts at 1. */
  function ImportedCounter(n: Option<int>): (r: int)
    ensures r != 0
    ensures n.Some? && n.value != 0 ==> r == n.value
    ensures !(n.Some? && n.value != 0) ==> r == 1
  {
    if n.Some? && n.value != 0 then n.value else 1
  }

  /** `applyImportedConfig`: the snapshot replaces the whole store. */
  function ImportStep(snapshot: Snapshot): (r: Store)
    ensures r.nextWidgetId != 0
  {
    Store(Load(snapshot.widgets), ImportedCounter(snapshot.nextWidgetId))
  }

  /** Whatever the snapshot holds, the imported store is well formed; a later record with an id wins. */
  lemma {:induction false} LoadValid(ws: seq<Widget>)
    ensures StoreValid(Store(Load(ws), 1))
    ensures Load(ws).rows.Keys == set w | w in ws :: w.id
  {
    if ws != [] {
      var p := ws[..|ws| - 1];
      assert ws == p + [ws[|ws| - 1]];
      LoadValid(p);
      PutKeepsValid(Load(p), ws[|ws| - 1].id, ws[|ws| - 1]);
    }
  }

  function Restrict(rows: map<string, Widget>, keys: set<string>): map<string, Widget> {
    map k | k in rows && k in keys :: rows[k]
  }

  lemma RestrictSnoc(rows: map<string, Widget>, keys: set<string>, k: string)
    requires k in rows
    ensures Restrict(rows, keys)[k := rows[k]] == Restrict(rows, keys + {k})
  {
  }

  lemma {:induction false} LoadValues(order: seq<string>, rows: map<string, Widget>)
    requires Members(order) <= rows.Keys && NoDups(order)
    requires forall k :: k in rows ==> rows[k].id == k
    ensures Load(Values(order, rows)) == Table(order, Restrict(rows, Members(order)))
  {
    if order != [] {
      var p, k := order[..|order| - 1], order[|order| - 1];
      assert order == p + [k];
      MembersSnoc(p, k);
      assert NoDups(p);
      LoadValues(p, rows);
      var vs := Values(order, rows);
      assert vs[..|vs| - 1] == Values(p, rows) && vs[|vs| - 1] == rows[k];
      assert k !in Restrict(rows, Members(p));
      RestrictSnoc(rows, Members(p), k);
    }
  }

  /** Exporting and importing again restores the store, unless its counter had reached zero. */
  lemma ExportImportRoundTrip(s: Store)
    requires StoreValid(s) && s.nextWidgetId != 0
    ensures ImportStep(Export(s)) == s
  {
    LoadValues(s.table.order, s.table.rows);
    assert Restrict(s.table.rows, Members(s.table.order)) == s.table.rows;
  }

  // ---------------------------------------------------------------------
  // Notes, kept in a widget's configuration under "notes"
  // ---------------------------------------------------------------------

  const NotesKey := "notes"

  function Lookup(config: map<string, Value>, key: string): Option<Value> {
    if key in config then Some(config[key]) else None
  }

  /** The notes of a known widget as a list: a falsy property counts as no notes. */
  function NoteItems(s: Store, widgetId: string): seq<Value>
    requires widgetId in s.table.rows
  {
    var notes := Lookup(s.table.rows[widgetId].config, NotesKey);
    if Truthy(notes) && notes.value.Arr? then notes.value.items else []
  }

  /** The store with a known widget's notes property set to `v`. */
  function WithNotes(s: Store, widgetId: string, v: Value): Store
    requires widgetId in s.table.rows
  {
    var w := s.table.rows[widgetId];
    Store(Table(s.table.order, s.table.rows[widgetId := w.(config := w.config[NotesKey := v])]), s.nextWidgetId)
  }

  /** Only the one widget's notes property changes. */
  lemma WithNotesEffect(s: Store, widgetId: string, v: Value)
    requires StoreValid(s) && widgetId in s.table.rows
    ensures var r := WithNotes(s, widgetId, v);
      StoreValid(r) && (Fresh(s) ==> Fresh(r)) && r.nextWidgetId == s.nextWidgetId &&
      r.table.order == s.table.order && r.table.rows.Keys == s.table.rows.Keys &&
      (forall k :: k in s.table.rows && k != widgetId ==> r.table.rows[k] == s.table.rows[k]) &&
      r.table.rows[widgetId] == s.table.rows[widgetId].(config := s.table.rows[widgetId].config[NotesKey := v])
  {
  }

  /**
   * `getNotesData`: a falsy notes property is replaced by an empty list
   * first. `None` is the unknown widget, for which the source throws.
   */
  function NotesDataStep(s: Store, widgetId: string): (r: (Store, Option<Value>))
    ensures r.0.nextWidgetId == s.nextWidgetId && r.0.table.order == s.table.order
    ensures r.0.table.rows.Keys == s.table.rows.Keys
  {
    if widgetId !in s.table.rows then (s, None)
    else
      var notes := Lookup(s.table.rows[widgetId].config, NotesKey);
      if Truthy(notes) then (s, notes) else (WithNotes(s, widgetId, Arr([])), Some(Arr([])))
  }

  /** The notes returned are what the widget holds afterwards, and always truthy. */
  lemma NotesDataSpec(s: Store, widgetId: string)
    ensures var (r, notes) := NotesDataStep(s, widgetId);
      (notes.Some? <==> widgetId in s.table.rows) &&
      (notes.Some? ==>
         widgetId in r.table.rows && Truthy(notes) &&
         Lookup(r.table.rows[widgetId].config, NotesKey) == notes &&
         NoteItems(r, widgetId) == NoteItems(s, widgetId))
  {
  }

  /**
   * `addNote`: the trimmed text goes first in the list and the input is
   * cleared (the second component is the input's new value). Blank text,
   * an unknown widget, or a notes property that is truthy but not a list
   * (the source throws before changing anything) leave all as it was.
   */
  function AddNoteStep(s: Store, widgetId: string, input: string): (r: (Store, string))
    ensures r.0.nextWidgetId == s.nextWidgetId && r.0.table.order == s.table.order
    ensures r.0.table.rows.Keys == s.table.rows.Keys
    ensures r.1 == input || r.1 == ""
  {
    var text := Trim(input);
    if text == [] || widgetId !in s.table.rows then (s, input)
    else
      var notes := Lookup(s.table.rows[widgetId].config, NotesKey);
      if !Truthy(notes) then (WithNotes(s, widgetId, Arr([Str(text)])), "")
      else if notes.value.Arr? then (WithNotes(s, widgetId, Arr([Str(text)] + notes.value.items)), "")
      else (s, input)
  }

  /** White space alone is never stored. */
  lemma AddNoteIgnoresBlank(s: Store, widgetId: string, input: string)
    requires forall k :: 0 <= k < |input| ==> IsSpace(input[k])
    ensures AddNoteStep(s, widgetId, input) == (s, input)
  {
    TrimEmptyIff(input);
  }

  /** A note with text goes to the front of the widget's list, trimmed, and the input is emptied. */
  lemma AddNotePrepends(s: Store, widgetId: string, input: string)
    requires widgetId in s.table.rows && Trim(input) != []
    requires var notes := Lookup(s.table.rows[widgetId].config, NotesKey); !Truthy(notes) || notes.value.Arr?
    ensures var (r, remaining) := AddNoteStep(s, widgetId, input);
      remaining == "" && widgetId in r.table.rows &&
      NoteItems(r, widgetId) == [Str(Trim(input))] + NoteItems(s, widgetId) &&
      r == WithNotes(s, widgetId, Arr(NoteItems(r, widgetId)))
  {
    var text := Trim(input);
    var notes := Lookup(s.table.rows[widgetId].config, NotesKey);
    var items := NoteItems(s, widgetId);
    assert [Str(text)] + [] == [Str(text)];
    assert AddNoteStep(s, widgetId, input) == (WithNotes(s, widgetId, Arr([Str(text)] + items)), "");
  }

  /** `Array.prototype.splice(index, 1)`: a negative index counts from the end; past the end removes nothing. */
  function SpliceOne<T>(items: seq<T>, index: int): (r: seq<T>)
    ensures |r| == if items != [] && index < |items| then |items| - 1 else |items|
  {
    var start := if index < 0 then (if |items| + index < 0 then 0 else |items| + index)
                 else (if index < |items| then index else |items|);
    if start < |items| then items[..start] + items[start + 1..] else items
  }

  /** Removing an index that is in range drops exactly that note and keeps the others in order. */
  lemma SpliceOneInRange<T>(items: seq<T>, index: int)
    requires 0 <= index < |items|
    ensures SpliceOne(items, index) == items[..index] + items[index + 1..]
  {
  }

  /**
   * `removeNote`: splice one entry out of a notes list. An unknown widget
   * or a notes property that is not a list (falsy, or without `splice`)
   * leaves all as it was.
   */
  function RemoveNoteStep(s: Store, widgetId: string, index: int): (r: Store)
    ensures r.nextWidgetId == s.nextWidgetId && r.table.order == s.table.order
    ensures r.table.rows.Keys == s.table.rows.Keys
  {
    if widgetId !in s.table.rows then s
    else
      var notes := Lookup(s.table.rows[widgetId].config, NotesKey);
      if Truthy(notes) && notes.value.Arr? then WithNotes(s, widgetId, Arr(SpliceOne(notes.value.items, index)))
      else s
  }

  lemma RemoveNoteEffect(s: Store, widgetId: string, index: int)
    requires widgetId in s.table.rows
    ensures var r := RemoveNoteStep(s, widgetId, index);
      widgetId in r.table.rows && NoteItems(r, widgetId) == SpliceOne(NoteItems(s, widgetId), index) &&
      (0 <= index < |NoteItems(s, widgetId)| ==>
        NoteItems(r, widgetId) == NoteItems(s, widgetId)[..index] + NoteItems(s, widgetId)[index + 1..])
  {
  }

  /** Deleting the first note right after adding one to a list gives back the store as it was. */
  lemma RemoveNoteUndoesAdd(s: Store, widgetId: string, input: string)
    requires widgetId in s.table.rows && Trim(input) != []
    requires Lookup(s.table.rows[widgetId].config, NotesKey).Some?
    requires Lookup(s.table.rows[widgetId].config, NotesKey).value.Arr?
    ensures RemoveNoteStep(AddNoteStep(s, widgetId, input).0, widgetId, 0) == s
  {
    var items := s.table.rows[widgetId].config[NotesKey].items;
    var added := WithNotes(s, widgetId, Arr([Str(Trim(input))] + items));
    assert AddNoteStep(s, widgetId, input).0 == added;
    RemoveFrontNote(s, widgetId, Str(Trim(input)), items);
  }

  /** Splicing out the first note of a list that had one note put in front gives back the store. */
  lemma RemoveFrontNote(s: Store, widgetId: string, x: Value, items: seq<Value>)
    requires widgetId in s.table.rows && Lookup(s.table.rows[widgetId].config, NotesKey) == Some(Arr(items))
    ensures RemoveNoteStep(WithNotes(s, widgetId, Arr([x] + items)), widgetId, 0) == s
  {
    var w := s.table.rows[widgetId];
    var added := WithNotes(s, widgetId, Arr([x] + items));
    assert SpliceOne([x] + items, 0) == items;
    assert RemoveNoteStep(added, widgetId, 0) == WithNotes(added, widgetId, Arr(items));
    assert w.config[NotesKey := Arr(items)] == w.config;
    assert added.table.rows[widgetId].config[NotesKey := Arr(items)] == w.config;
    assert s.table.rows[widgetId := w] == s.table.rows;
  }

  // ---------------------------------------------------------------------
  // The dashboard object
  // ---------------------------------------------------------------------

  class Dashboard {
    var order: seq<string>
    var widgets: map<string, Widget>
    var nextWidgetId: int

    function State(): Store
      reads this
    {
      Store(Table(order, widgets), nextWidgetId)
    }

    ghost predicate Valid()
      reads this
    {
      StoreValid(State())
    }

    constructor()
      ensures State() == InitialStore && Valid() && Fresh(State())
    {
      order := [];
      widgets := map[];
      nextWidgetId := 1;
    }

    method AddWidget(widgetType: string, config: map<string, Value>)
      requires Valid()
      modifies this
      ensures Valid() && State() == AddWidgetStep(old(State()), widgetType, config)
    {
      AddWidgetEffect(State(), widgetType, config);
      var key := WidgetKey(nextWidgetId);
      nextWidgetId := nextWidgetId + 1;
      if key !in widgets {
        order := order + [key];
      }
      widgets := widgets[key := Widget(key, widgetType, config, Null)];
    }

    method RemoveWidget(widgetId: string)
      requires Valid()
      modifies this
      ensures Valid() && State() == RemoveWidgetStep(old(State()), widgetId)
    {
      RemoveWidgetEffect(State(), widgetId);
      order := Without(order, widgetId);
      widgets := widgets - {widgetId};
    }

    method UpdateWidgetConfig(widgetId: string, newConfig: map<string, Value>)
      requires Valid()
      modifies this
      ensures Valid() && State() == UpdateConfigStep(old(State()), widgetId, newConfig)
    {
      UpdateConfigEffect(State(), widgetId, newConfig);
      if widgetId in widgets {
        var w := widgets[widgetId];
        widgets := widgets[widgetId := w.(config := Merge(w.config, newConfig))];
      }
    }

    /** `saveLayout`: rebuild the map from the ids the grid shows, in that order. */
    method SaveLayout(ids: seq<string>)
      requires Valid()
      modifies this
      ensures Valid() && State() == SaveLayoutStep(old(State()), ids)
    {
      SaveLayoutEffect(State(), ids);
      var newOrder: seq<string> := [];
      var newWidgets: map<string, Widget> := map[];
      for i := 0 to |ids|
        invariant Table(newOrder, newWidgets) == Arrange(Table(order, widgets), ids[..i])
      {
        assert ids[..i + 1][..i] == ids[..i];
        var id := ids[i];
        if id in widgets {
          if id !in newWidgets {
            newOrder := newOrder + [id];
          }
          newWidgets := newWidgets[id := widgets[id]];
        }
      }
      assert ids[..|ids|] == ids;
      order, widgets := newOrder, newWidgets;
    }

    /** `applyImportedConfig`: clear, take the snapshot's counter, and set each record under its id. */
    method ApplyImportedConfig(snapshot: Snapshot)
      modifies this
      ensures Valid() && State() == ImportStep(snapshot)
    {
      LoadValid(snapshot.widgets);
      order, widgets := [], map[];
      nextWidgetId := ImportedCounter(snapshot.nextWidgetId);
      var ws := snapshot.widgets;
      for i := 0 to |ws|
        invariant Table(order, widgets) == Load(ws[..i])
        invariant nextWidgetId == ImportedCounter(snapshot.nextWidgetId)
      {
        assert ws[..i + 1][..i] == ws[..i];
        var w := ws[i];
        if w.id !in widgets {
          order := order + [w.id];
        }
        widgets := widgets[w.id := w];
      }
      assert ws[..|ws|] == ws;
    }

    /** `getNotesData`; `None` for an unknown widget, where the source throws. */
    method NotesData(widgetId: string) returns (notes: Option<Value>)
      requires Valid()
      modifies this
      ensures Valid() && (State(), notes) == NotesDataStep(old(State()), widgetId)
    {
      if widgetId !in widgets {
        return None;
      }
      var w := widgets[widgetId];
      notes := Lookup(w.config, NotesKey);
      if !Truthy(notes) {
        WithNotesEffect(State(), widgetId, Arr([]));
        notes := Some(Arr([]));
        widgets := widgets[widgetId := w.(config := w.config[NotesKey := Arr([])])];
      }
    }

    /** `addNote`; `remaining` is the input field's value afterwards. */
    method AddNote(widgetId: string, input: string) returns (remaining: string)
      requires Valid()
      modifies this
      ensures Valid() && (State(), remaining) == AddNoteStep(old(State()), widgetId, input)
    {
      var text := Trim(input);
      if text == [] || widgetId !in widgets {
        return input;
      }
      var w := widgets[widgetId];
      var notes := Lookup(w.config, NotesKey);
      var items: seq<Value>;
      if !Truthy(notes) {
        items := [];
        assert [Str(text)] + items == [Str(text)];
      } else if notes.value.Arr? {
        items := notes.value.items;
      } else {
        return input;
      }
      ghost var s0 := State();
      assert AddNoteStep(s0, widgetId, input) == (WithNotes(s0, widgetId, Arr([Str(text)] + items)), "");
      WithNotesEffect(s0, widgetId, Arr([Str(text)] + items));
      widgets := widgets[widgetId := w.(config := w.config[NotesKey := Arr([Str(text)] + items)])];
      remaining := "";
    }

    method RemoveNote(widgetId: string, index: int)
      requires Valid()
      modifies this
      ensures Valid() && State() == RemoveNoteStep(old(State()), widgetId, index)
    {
      if widgetId in widgets {
        var w := widgets[widgetId];
        var notes := Lookup(w.config, NotesKey);
        if Truthy(notes) && notes.value.Arr? {
          var items := SpliceOne(notes.value.items, index);
          WithNotesEffect(State(), widgetId, Arr(items));
          widgets := widgets[widgetId := w.(config := w.config[NotesKey := Arr(items)])];
        }
      }
    }
  }
}
