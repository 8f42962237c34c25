/**
 * The tool table of the metadata repository and the cache in front of ListTools
 * (internal/repository/metadata.go and internal/repository/cache.go), for sequential histories.
 *
 * A query may fail or stop delivering rows before the last one; a statement may be refused, or take effect
 * and still be reported as failed.  Time is an integer.
 */
module ToolRepository {
  import opened Std

  datatype ToolRecord = ToolRecord(
    id: string, name: string, description: string, code: string,
    category: string, version: string, health: string, source: string)

  /** A row of system_tools; None is NULL, which cannot be scanned into a string. */
  datatype Row = Row(
    id: string, name: Option<string>, description: Option<string>, code: Option<string>,
    category: Option<string>, version: Option<string>, health: Option<string>, source: Option<string>)

  type Table = seq<Row>

  predicate Scans(r: Row) {
    && r.name.Some? && r.description.Some? && r.code.Some?
    && r.category.Some? && r.version.Some? && r.health.Some? && r.source.Some?
  }

  function Scanned(r: Row): ToolRecord
    requires Scans(r)
  {
    ToolRecord(
      r.id, r.name.value, r.description.value, r.code.value,
      r.category.value, r.version.value, r.health.value, r.source.value)
  }

  function RowOf(t: ToolRecord): Row {
    Row(
      t.id, Some(t.name), Some(t.description), Some(t.code),
      Some(t.category), Some(t.version), Some(t.health), Some(t.source))
  }

  /** The table's contents as records; rows that do not scan are skipped. */
  function Contents(t: Table): seq<ToolRecord> {
    if t == [] then []
    else
      var last := t[|t| - 1];
      Contents(t[..|t| - 1]) + if Scans(last) then [Scanned(last)] else []
  }

  /** What a read sees that stops after `delivered` rows. */
  function Fetched(t: Table, delivered: nat): seq<ToolRecord> {
    Contents(if delivered < |t| then t[..delivered] else t)
  }

  predicate AnyScans(t: Table) {
    exists i :: 0 <= i < |t| && Scans(t[i])
  }

  lemma {:induction false} ContentsSplit(t: Table, n: nat)
    requires n <= |t|
    ensures |Contents(t[..n])| <= |Contents(t)|
    ensures |Contents(t[..n])| == |Contents(t)| <==> !AnyScans(t[n..])
    ensures !AnyScans(t[n..]) ==> Contents(t[..n]) == Contents(t)
  {
    if n == |t| {
      assert t[..n] == t;
    } else {
      var m := |t| - 1;
      ContentsSplit(t[..m], n);
      assert t[..m][..n] == t[..n];
      assert forall i :: 0 <= i < m - n ==> t[..m][n..][i] == t[n..][i];
      assert t[n..][m - n] == t[m];
    }
  }

  /** A read that stops early sees everything exactly when no row it missed scans. */
  lemma FetchedIff(t: Table, delivered: nat)
    ensures Fetched(t, delivered) == Contents(t) <==> delivered >= |t| || !AnyScans(t[delivered..])
  {
    if delivered < |t| { ContentsSplit(t, delivered); }
  }

  // ----- the five changes -----

  datatype Edit =
    | Create(tool: ToolRecord)
    | Update(tool: ToolRecord)
    | UpdateCode(id: string, code: string)
    | UpdateHealth(id: string, status: string)
    | Delete(id: string)

  predicate HasId(t: Table, id: string) {
    exists i :: 0 <= i < |t| && t[i].id == id
  }

  /** UPDATE ... WHERE id = $n */
  function Patched(t: Table, id: string, f: Row -> Row): Table {
    seq(|t|, i requires 0 <= i < |t| => if t[i].id == id then f(t[i]) else t[i])
  }

  function Without(t: Table, id: string): Table {
    if t == [] then []
    else
      var last := t[|t| - 1];
      Without(t[..|t| - 1], id) + if last.id == id then [] else [last]
  }

  function Replaced(tool: ToolRecord): Row -> Row {
    (r: Row) => RowOf(tool).(id := r.id)
  }

  function Recoded(code: string): Row -> Row {
    (r: Row) => r.(code := Some(code))
  }

  function Marked(status: string): Row -> Row {
    (r: Row) => r.(health := Some(status))
  }

  /** The table after a statement that takes effect; a duplicate id violates the primary key. */
  function Edited(t: Table, e: Edit): Option<Table> {
    match e
    case Create(tool) => if HasId(t, tool.id) then None else Some(t + [RowOf(tool)])
    case Update(tool) => Some(Patched(t, tool.id, Replaced(tool)))
    case UpdateCode(id, code) => Some(Patched(t, id, Recoded(code)))
    case UpdateHealth(id, status) => Some(Patched(t, id, Marked(status)))
    case Delete(id) => Some(Without(t, id))
  }

  /** The rows of one tool. */
  function RowsOf(t: Table, id: string): seq<Row> {
    if t == [] then []
    else
      var last := t[|t| - 1];
      RowsOf(t[..|t| - 1], id) + if last.id == id then [last] else []
  }

  function EditedId(e: Edit): string {
    if e.Create? || e.Update? then e.tool.id else e.id
  }

  lemma {:induction false} PatchedRows(t: Table, target: string, f: Row -> Row, id: string)
    requires forall r: Row :: f(r).id == r.id
    ensures id != target ==> RowsOf(Patched(t, target, f), id) == RowsOf(t, id)
    ensures |RowsOf(Patched(t, target, f), target)| == |RowsOf(t, target)|
    ensures forall i :: 0 <= i < |RowsOf(t, target)| ==>
      RowsOf(Patched(t, target, f), target)[i] == f(RowsOf(t, target)[i])
  {
    if t != [] {
      var n := |t| - 1;
      PatchedRows(t[..n], target, f, id);
      assert Patched(t, target, f)[..n] == Patched(t[..n], target, f);
    }
  }

  lemma {:induction false} WithoutRows(t: Table, target: string, id: string)
    ensures RowsOf(Without(t, target), id) == if id == target then [] else RowsOf(t, id)
  {
    if t != [] {
      var n := |t| - 1;
      WithoutRows(t[..n], target, id);
      var rest := Without(t[..n], target);
      if t[n].id == target {
        assert Without(t, target) == rest;
      } else {
        assert (rest + [t[n]])[..|rest|] == rest;
      }
    }
  }

  lemma {:induction false} RowsOfMissing(t: Table, id: string)
    ensures RowsOf(t, id) == [] <==> !HasId(t, id)
  {
    if t != [] {
      var n := |t| - 1;
      RowsOfMissing(t[..n], id);
      assert forall i :: 0 <= i < n ==> t[..n][i] == t[i];
    }
  }

  /** No change touches the rows of another tool. */
  lemma EditTouchesOneTool(t: Table, e: Edit, id: string)
    requires Edited(t, e).Some? && id != EditedId(e)
    ensures RowsOf(Edited(t, e).value, id) == RowsOf(t, id)
  {
    match e
    case Create(tool) => assert (t + [RowOf(tool)])[..|t|] == t;
    case Update(tool) => PatchedRows(t, tool.id, Replaced(tool), id);
    case UpdateCode(target, code) => PatchedRows(t, target, Recoded(code), id);
    case UpdateHealth(target, status) => PatchedRows(t, target, Marked(status), id);
    case Delete(target) => WithoutRows(t, target, id);
  }

  /** What a change makes of the tool's own row, under the primary key at most one. */
  function EditedRow(r: Row, e: Edit): Row {
    match e
    case Create(_) => r
    case Update(tool) => RowOf(tool)
    case UpdateCode(_, code) => r.(code := Some(code))
    case UpdateHealth(_, status) => r.(health := Some(status))
    case Delete(_) => r
  }

  lemma EditedTool(t: Table, e: Edit)
    requires Edited(t, e).Some?
    ensures
      var before, after := RowsOf(t, EditedId(e)), RowsOf(Edited(t, e).value, EditedId(e));
      && (e.Create? ==> before == [] && after == [RowOf(e.tool)])
      && (e.Delete? ==> after == [])
      && (!e.Create? && !e.Delete? ==>
            |after| == |before| && forall i :: 0 <= i < |after| ==> after[i] == EditedRow(before[i], e))
  {
    var id := EditedId(e);
    RowsHaveId(t, id);
    match e
    case Create(tool) => RowsOfMissing(t, id); assert (t + [RowOf(tool)])[..|t|] == t;
    case Update(tool) => PatchedRows(t, id, Replaced(tool), id);
    case UpdateCode(_, code) => PatchedRows(t, id, Recoded(code), id);
    case UpdateHealth(_, status) => PatchedRows(t, id, Marked(status), id);
    case Delete(_) => WithoutRows(t, id, id);
  }

  /** What the statements make of a tool as it is listed: the code alone, the health alone, all but the id. */
  lemma EditedRecord(r: Row, tool: ToolRecord, text: string)
    requires Scans(r)
    ensures var before := Scanned(r);
      && Scanned(RowOf(tool)) == tool
      && Scanned(Replaced(tool)(r)) == tool.(id := before.id)
      && Scanned(Recoded(text)(r)) == before.(code := text)
      && Scanned(Marked(text)(r)) == before.(health := text)
  {
  }

  lemma {:induction false} RowsHaveId(t: Table, id: string)
    ensures forall i :: 0 <= i < |RowsOf(t, id)| ==> RowsOf(t, id)[i].id == id
  {
    if t != [] { RowsHaveId(t[..|t| - 1], id); }
  }

  // ----- the repository as a table and a remembered list -----

  /** `Lost`: the statement took effect but an error came back. */
  datatype Reply = Done | Refused | Lost

  datatype State = State(table: Table, view: Option<seq<ToolRecord>>)

  datatype Op =
    | List(queryFails: bool, delivered: nat)
    | Change(edit: Edit, reply: Reply)
    | Forget      // expiry, eviction or cleanup of the remembered list

  function Step(s: State, op: Op): State {
    match op
    case List(queryFails, delivered) =>
      if s.view.Some? || queryFails then s else s.(view := Some(Fetched(s.table, delivered)))
    case Change(edit, reply) =>
      var t := Edited(s.table, edit);
      if t.None? || reply == Refused then s
      else State(t.value, if reply == Done then None else s.view)
    case Forget => s.(view := None)
  }

  function Answer(s: State, queryFails: bool, delivered: nat): Option<seq<ToolRecord>> {
    if s.view.Some? then s.view else if queryFails then None else Some(Fetched(s.table, delivered))
  }

  predicate Coherent(s: State) {
    s.view.Some? ==> s.view.value == Contents(s.table)
  }

  /** The two ways to make the remembered list differ from the table. */
  predicate Breaks(s: State, op: Op) {
    match op
    case List(queryFails, delivered) =>
      s.view.None? && !queryFails && delivered < |s.table| && AnyScans(s.table[delivered..])
    case Change(edit, reply) =>
      && reply == Lost && s.view.Some? && Edited(s.table, edit).Some?
      && Contents(Edited(s.table, edit).value) != Contents(s.table)
    case Forget => false
  }

  /** A step spoils the list exactly when a read misses a row, or a lost reply hides a visible change. */
  lemma StepCoherentIff(s: State, op: Op)
    requires Coherent(s)
    ensures Coherent(Step(s, op)) <==> !Breaks(s, op)
  {
    if op.List? { FetchedIff(s.table, op.delivered); }
  }

  function StateAt(s: State, ops: seq<Op>): State {
    if ops == [] then s else Step(StateAt(s, ops[..|ops| - 1]), ops[|ops| - 1])
  }

  ghost predicate Sound(s: State, ops: seq<Op>) {
    forall i :: 0 <= i < |ops| ==> !Breaks(StateAt(s, ops[..i]), ops[i])
  }

  lemma {:induction false} HistoryCoherent(s: State, ops: seq<Op>)
    requires Coherent(s) && Sound(s, ops)
    ensures Coherent(StateAt(s, ops))
  {
    if ops != [] {
      var n := |ops| - 1;
      assert forall i :: 0 <= i < n ==> ops[..n][..i] == ops[..i];
      HistoryCoherent(s, ops[..n]);
      StepCoherentIff(StateAt(s, ops[..n]), ops[n]);
    }
  }

  /** In every such history a list that is answered is the current contents of the table. */
  lemma ListIsCurrent(s: State, ops: seq<Op>, queryFails: bool, delivered: nat)
    requires Coherent(s) && Sound(s, ops) && !Breaks(StateAt(s, ops), List(queryFails, delivered))
    ensures var now := StateAt(s, ops);
      Answer(now, queryFails, delivered).Some? ==> Answer(now, queryFails, delivered).value == Contents(now.table)
  {
    HistoryCoherent(s, ops);
    FetchedIff(StateAt(s, ops).table, delivered);
  }

  /** A read that misses a row is served again, although the next read would be complete. */
  lemma ShortReadIsRemembered(tool: ToolRecord)
    ensures
      var s := State([RowOf(tool)], None);
      var after := StateAt(s, [List(false, 0)]);
      Answer(after, false, 1) == Some([]) && Contents(after.table) == [tool]
  {
    var s := State([RowOf(tool)], None);
    assert [List(false, 0)][..0] == [];
    assert [RowOf(tool)][..0] == [];
  }

  // ----- the cache -----

  datatype Cached = Tools(tools: seq<ToolRecord>) | Other

  datatype CacheEntry = CacheEntry(value: Cached, expiresAt: int, accessed: int)

  datatype Key = Key(text: string)

  type Entries = map<Key, CacheEntry>

  const LIST_TOOLS: Key := Key("list_tools")
  const DEFAULT_TTL: int := 300_000_000_000
  const DEFAULT_MAX_SIZE: int := 500

  function View(entries: Entries): Option<seq<ToolRecord>> {
    if LIST_TOOLS in entries && entries[LIST_TOOLS].value.Tools? then Some(entries[LIST_TOOLS].value.tools) else None
  }

  predicate Oldest(entries: Entries, key: Key) {
    key in entries && forall k :: k in entries ==> entries[key].accessed <= entries[k].accessed
  }

  /** Eviction drops one least recently accessed entry, unless its key is empty. */
  ghost predicate EvictsOne(before: Entries, after: Entries) {
    (before == map[] && after == before)
    || exists key :: Oldest(before, key) && after == if key.text == "" then before else before - {key}
  }

  /** At most the remembered list is lost; it is never replaced. */
  predicate OnlyForgets(before: Entries, after: Entries) {
    View(after) == View(before) || View(after) == None
  }

  /** What a full cache keeps when one more entry comes in. */
  ghost predicate MakesRoom(before: Entries, kept: Entries, maxSize: int) {
    if |before| >= maxSize then EvictsOne(before, kept) else kept == before
  }

  ghost predicate Stores(before: Entries, after: Entries, maxSize: int, key: Key, entry: CacheEntry) {
    exists kept :: MakesRoom(before, kept, maxSize) && after == kept[key := entry]
  }

  lemma StoredIsViewed(before: Entries, after: Entries, maxSize: int, entry: CacheEntry)
    requires Stores(before, after, maxSize, LIST_TOOLS, entry) && entry.value.Tools?
    ensures View(after) == Some(entry.value.tools)
  {
  }

  /** What a lookup of the list leaves to be seen. */
  lemma LookedUp(e: Entries, now: int)
    ensures LIST_TOOLS in e ==> View(e[LIST_TOOLS := e[LIST_TOOLS].(accessed := now)]) == View(e)
    ensures View(e - {LIST_TOOLS}) == None
  {
  }

  class ToolCache {
    var entries: Entries
    var maxSize: int
    const ttl: int

    constructor ()
      ensures entries == map[] && maxSize == 500 && ttl == 300_000_000_000
    {
      entries, maxSize, ttl := map[], DEFAULT_MAX_SIZE, DEFAULT_TTL;
    }

    method Get(key: Key, now: int) returns (v: Option<Cached>)
      modifies this`entries
      ensures v.Some? <==> key in old(entries) && now <= old(entries)[key].expiresAt
      ensures v.Some? ==> v.value == old(entries)[key].value
      ensures entries ==
        if v.Some? then old(entries)[key := old(entries)[key].(accessed := now)] else old(entries) - {key}
    {
      if key !in entries {
        return None;
      }
      var entry := entries[key];
      if now > entry.expiresAt {
        entries := entries - {key};
        return None;
      }
      entries := entries[key := entry.(accessed := now)];
      return Some(entry.value);
    }

    method Set(key: Key, value: Cached, now: int)
      modifies this`entries
      ensures Stores(old(entries), entries, maxSize, key, CacheEntry(value, now + ttl, now))
    {
      if |entries| >= maxSize {
        EvictLRU();
      }
      assert MakesRoom(old(entries), entries, maxSize);
      entries := entries[key := CacheEntry(value, now + ttl, now)];
    }

    method Invalidate(key: Key)
      modifies this`entries
      ensures entries == old(entries) - {key}
    {
      entries := entries - {key};
    }

    method SetMaxSize(size: int)
      modifies this
      ensures maxSize == if size > 0 then size else old(maxSize)
      ensures if |old(entries)| > maxSize then EvictsOne(old(entries), entries) else entries == old(entries)
      ensures OnlyForgets(old(entries), entries)
    {
      if size > 0 {
        maxSize := size;
      }
      if |entries| > maxSize {
        EvictLRU();
      }
    }

    method EvictLRU()
      modifies this`entries
      ensures EvictsOne(old(entries), entries) && OnlyForgets(old(entries), entries)
    {
      var oldestKey := Key("");
      var oldestTime := 0;
      var first := true;
      var left := entries.Keys;
      while left != {}
        invariant entries == old(entries) && left <= entries.Keys
        invariant first <==> left == entries.Keys
        invariant first ==> oldestKey == Key("")
        invariant !first ==> oldestKey in entries && oldestTime == entries[oldestKey].accessed
        invariant forall k :: k in entries && k !in left ==> oldestTime <= entries[k].accessed
        decreases |left|
      {
        assert (forall k :: k !in left) ==> left == {};
        var key :| key in left;
        if first || entries[key].accessed < oldestTime {
          oldestKey, oldestTime, first := key, entries[key].accessed, false;
        }
        left := left - {key};
      }
      assert !first ==> Oldest(entries, oldestKey);
      if oldestKey.text != "" {
        entries := entries - {oldestKey};
      }
    }

    method CleanupExpired(now: int)
      modifies this`entries
      ensures entries == map k | k in old(entries) && now <= old(entries)[k].expiresAt :: old(entries)[k]
      ensures OnlyForgets(old(entries), entries)
    {
      var left := entries.Keys;
      while left != {}
        invariant left <= old(entries).Keys
        invariant forall k :: k in entries <==> k in old(entries) && (k in left || now <= old(entries)[k].expiresAt)
        invariant forall k :: k in entries ==> entries[k] == old(entries)[k]
        decreases |left|
      {
        assert (forall k :: k !in left) ==> left == {};
        var key :| key in left;
        if now > entries[key].expiresAt {
          entries := entries - {key};
        }
        left := left - {key};
      }
    }
  }

  // ----- the repository -----

  class MetadataRepository {
    const toolCache: ToolCache
    var table: Table

    ghost function Abs(): State
      reads this, toolCache
    {
      State(table, View(toolCache.entries))
    }

    constructor (table: Table)
      ensures fresh(toolCache) && Abs() == State(table, None)
    {
      toolCache := new ToolCache();
      this.table := table;
    }

    /** An expired list is forgotten first. */
    ghost function Due(now: int): State
      reads this, toolCache
    {
      var e := toolCache.entries;
      if LIST_TOOLS in e && now > e[LIST_TOOLS].expiresAt then Step(Abs(), Forget) else Abs()
    }

    method ListTools(now: int, queryFails: bool, delivered: nat) returns (tools: Option<seq<ToolRecord>>)
      modifies toolCache
      ensures table == old(table)
      ensures tools == Answer(old(Due(now)), queryFails, delivered)
      ensures Abs() == Step(old(Due(now)), List(queryFails, delivered))
    {
      LookedUp(toolCache.entries, now);
      var v := toolCache.Get(LIST_TOOLS, now);
      if v.Some? && v.value.Tools? {
        return Some(v.value.tools);
      }
      if queryFails {
        return None;
      }
      var found := Fetch(delivered);
      ghost var before := toolCache.entries;
      toolCache.Set(LIST_TOOLS, Tools(found), now);
      StoredIsViewed(before, toolCache.entries, toolCache.maxSize, CacheEntry(Tools(found), now + toolCache.ttl, now));
      return Some(found);
    }

    /** The row loop of a read that ends after `delivered` rows. */
    method Fetch(delivered: nat) returns (found: seq<ToolRecord>)
      ensures found == Fetched(table, delivered)
    {
      found := [];
      var rows := if delivered < |table| then table[..delivered] else table;
      for i := 0 to |rows|
        invariant found == Contents(rows[..i])
      {
        assert rows[..i + 1][..i] == rows[..i];
        if Scans(rows[i]) {
          found := found + [Scanned(rows[i])];
        }
      }
      assert rows[..|rows|] == rows;
    }

    method CreateTool(tool: ToolRecord, reply: Reply) returns (ok: bool)
      modifies this`table, toolCache
      ensures Abs() == Step(old(Abs()), Change(Create(tool), reply))
      ensures ok <==> reply == Done && !HasId(old(table), tool.id)
    {
      ok := Exec(Create(tool), reply);
    }

    method UpdateTool(tool: ToolRecord, reply: Reply) returns (ok: bool)
      modifies this`table, toolCache
      ensures Abs() == Step(old(Abs()), Change(Update(tool), reply)) && (ok <==> reply == Done)
    {
      ok := Exec(Update(tool), reply);
    }

    method UpdateToolCode(id: string, code: string, reply: Reply) returns (ok: bool)
      modifies this`table, toolCache
      ensures Abs() == Step(old(Abs()), Change(UpdateCode(id, code), reply)) && (ok <==> reply == Done)
    {
      ok := Exec(UpdateCode(id, code), reply);
    }

    method UpdateHealthStatus(id: string, status: string, reply: Reply) returns (ok: bool)
      modifies this`table, toolCache
      ensures Abs() == Step(old(Abs()), Change(UpdateHealth(id, status), reply)) && (ok <==> reply == Done)
    {
      ok := Exec(UpdateHealth(id, status), reply);
    }

    method DeleteTool(id: string, reply: Reply) returns (ok: bool)
      modifies this`table, toolCache
      ensures Abs() == Step(old(Abs()), Change(Delete(id), reply)) && (ok <==> reply == Done)
    {
      ok := Exec(Delete(id), reply);
    }

    /** What the five mutators share: run the statement, drop the list if it succeeded. */
    method Exec(edit: Edit, reply: Reply) returns (ok: bool)
      modifies this`table, toolCache
      ensures Abs() == Step(old(Abs()), Change(edit, reply))
      ensures ok <==> reply == Done && Edited(old(table), edit).Some?
    {
      var t := Edited(table, edit);
      if t.None? || reply == Refused {
        return false;
      }
      table := t.value;
      if reply == Lost {
        return false;
      }
      toolCache.Invalidate(LIST_TOOLS);
      return true;
    }
  }
}
