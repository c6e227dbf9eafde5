/** `DataManager` (modular/js/main.js): export envelopes, import of a saved
    file, the `backup_latest` snapshot and its restore, and the auto-backup
    interval handle.  The clock, the `confirm()` answer and the chosen
    file's text are parameters. */
module DataManagement {
  import opened Base
  import opened Assoc
  import opened Json
  import opened Storage
  import opened Errors
  import Capped

  /** The short key the snapshot of the namespace is stored under. */
  const BackupKey: string := "backup_latest"

  /** The auto-backup period: five minutes, in milliseconds. */
  const AutoBackupPeriod: nat := 5 * 60 * 1000

  /** `v.key` is present and truthy; false for anything but an object. */
  predicate HasTruthy(v: Value, key: string)
  {
    var p := Prop(v, key);
    p.Some? && Truthy(p.value)
  }

  /** Every value in the list is one `JSON.parse` could return. */
  predicate ValuesValid(fs: seq<Entry<Value>>)
  {
    forall e | e in fs :: Valid(e.value)
  }

  lemma ObjValid(fs: seq<Entry<Value>>)
    requires DistinctKeys(fs) && ValuesValid(fs)
    ensures Valid(Obj(fs))
  {
    assert forall i | 0 <= i < |fs| :: fs[i] in fs;
  }

  // ---------------------------------------------------------------------
  // Short keys
  // ---------------------------------------------------------------------

  /** `key.replace('football_sim_', '')` on a key of the namespace. */
  function ShortKey(k: string): string
    requires IsOwn(k)
  {
    k[|Prefix|..]
  }

  lemma ShortKeyInverse(k: string)
    requires IsOwn(k)
    ensures Prefix + ShortKey(k) == k
  {
    assert k == k[..|Prefix|] + k[|Prefix|..];
  }

  lemma PrefixInjective(a: string, b: string)
    requires Prefix + a == Prefix + b
    ensures a == b
  {
    PrefixedIsOwn(a);
    PrefixedIsOwn(b);
  }

  /** The short keys of the namespace's entries. */
  ghost function ShortKeys(m: map<string, string>): set<string>
  {
    set k | k in m && IsOwn(k) :: ShortKey(k)
  }

  lemma ShortKeysIn(m: map<string, string>, s: string)
    ensures s in ShortKeys(m) <==> Prefix + s in m
  {
    PrefixedIsOwn(s);
    if s in ShortKeys(m) {
      var k :| k in m && IsOwn(k) && ShortKey(k) == s;
      ShortKeyInverse(k);
    }
    if Prefix + s in m {
      assert ShortKey(Prefix + s) == s;
    }
  }

  /** `fields` holds, for every entry of the namespace, its short key with
      the value `get` decodes for it, and nothing else. */
  ghost predicate Collected(fields: seq<Entry<Value>>, m: map<string, string>)
  {
    && DistinctKeys(fields) && ValuesValid(fields)
    && KeySet(fields) == ShortKeys(m)
    && forall s | s in KeySet(fields) :: Prefix + s in m && Lookup(fields, s) == Some(Decode(m[Prefix + s]))
  }

  /** A `backup_latest` record for a store holding `m`, taken at `ts`. */
  ghost predicate IsSnapshot(fields: seq<Entry<Value>>, m: map<string, string>, ts: string)
  {
    && DistinctKeys(fields) && ValuesValid(fields)
    && KeySet(fields) == ShortKeys(m) + {"timestamp"}
    && Lookup(fields, "timestamp") == Some(Str(ts))
    && forall s | s in KeySet(fields) && s != "timestamp" :: Prefix + s in m && Lookup(fields, s) == Some(Decode(m[Prefix + s]))
  }

  /** A full export of a store holding `m`, taken at `ts`. */
  ghost predicate IsFullExport(fields: seq<Entry<Value>>, m: map<string, string>, ts: string)
  {
    && DistinctKeys(fields) && ValuesValid(fields)
    && KeySet(fields) == ShortKeys(m) + {"type", "timestamp"}
    && Lookup(fields, "type") == Some(Str("full"))
    && Lookup(fields, "timestamp") == Some(Str(ts))
    && forall s | s in KeySet(fields) && s != "type" && s != "timestamp" :: Prefix + s in m && Lookup(fields, s) == Some(Decode(m[Prefix + s]))
  }

  lemma SnapshotOf(data: seq<Entry<Value>>, m: map<string, string>, ts: string)
    requires Collected(data, m)
    ensures IsSnapshot(Put(data, "timestamp", Str(ts)), m, ts)
  {
  }

  lemma FullExportOf(data: seq<Entry<Value>>, m: map<string, string>, ts: string)
    requires Collected(data, m)
    ensures IsFullExport(Put(Put(data, "type", Str("full")), "timestamp", Str(ts)), m, ts)
  {
  }

  // ---------------------------------------------------------------------
  // Export envelopes
  // ---------------------------------------------------------------------

  /** The export kinds with an envelope of their own; any other kind is a
      full export. */
  predicate IsPartialKind(kind: string)
  {
    kind == "tournament" || kind == "season" || kind == "teams"
  }

  /** The fields of an export carrying two stored values, in literal
      order: `type`, `timestamp`, then `name1: get(key1)` and
      `name2: get(key2)`. */
  function PairDoc(kind: string, ts: string, name1: string, key1: string, name2: string, key2: string,
                   m: map<string, string>, denied: bool): (r: seq<Entry<Value>>)
    requires name1 != name2 && name1 !in EnvelopeKeys && name2 !in EnvelopeKeys
    ensures DistinctKeys(r) && ValuesValid(r)
    ensures Lookup(r, "type") == Some(Str(kind)) && Lookup(r, "timestamp") == Some(Str(ts))
  {
    Cons("type", Str(kind), Cons("timestamp", Str(ts),
      Cons(name1, Read(m, denied, key1, Null),
      Cons(name2, Read(m, denied, key2, Null), []))))
  }

  /** The fields of the teams export: `customTeams || []`. */
  function TeamsDoc(ts: string, m: map<string, string>, denied: bool): (r: seq<Entry<Value>>)
    ensures DistinctKeys(r) && ValuesValid(r)
    ensures Lookup(r, "type") == Some(Str("teams")) && Lookup(r, "timestamp") == Some(Str(ts))
  {
    var teams := Read(m, denied, "customTeams", Null);
    Cons("type", Str("teams"), Cons("timestamp", Str(ts),
      Cons("customTeams", if Truthy(teams) then teams else Arr([]), [])))
  }

  /** The document `export(kind)` builds for a partial kind, from a store
      holding `m` (or refusing access when `denied`), at `ts`. */
  function PartialEnvelope(kind: string, ts: string, m: map<string, string>, denied: bool): (r: Value)
    requires IsPartialKind(kind)
    ensures r.Obj? && DistinctKeys(r.fields) && ValuesValid(r.fields)
    ensures Lookup(r.fields, "type") == Some(Str(kind)) && Lookup(r.fields, "timestamp") == Some(Str(ts))
  {
    if kind == "tournament" then Obj(PairDoc(kind, ts, "tournament", "currentTournament", "manager", "managerProfile", m, denied))
    else if kind == "season" then Obj(PairDoc(kind, ts, "season", "currentSeason", "career", "careerMode", m, denied))
    else Obj(TeamsDoc(ts, m, denied))
  }

  /** The tournament export carries the stored tournament and manager
      profile and nothing else. */
  lemma TournamentEnvelope(ts: string, m: map<string, string>, denied: bool)
    ensures var fs := PartialEnvelope("tournament", ts, m, denied).fields;
      && KeySet(fs) == {"type", "timestamp", "tournament", "manager"}
      && Lookup(fs, "tournament") == Some(Read(m, denied, "currentTournament", Null))
      && Lookup(fs, "manager") == Some(Read(m, denied, "managerProfile", Null))
  {
  }

  /** The season export carries the stored season and career and nothing
      else. */
  lemma SeasonEnvelope(ts: string, m: map<string, string>, denied: bool)
    ensures var fs := PartialEnvelope("season", ts, m, denied).fields;
      && KeySet(fs) == {"type", "timestamp", "season", "career"}
      && Lookup(fs, "season") == Some(Read(m, denied, "currentSeason", Null))
      && Lookup(fs, "career") == Some(Read(m, denied, "careerMode", Null))
  {
  }

  /** The teams export carries the stored custom teams, or `[]` when they
      are missing or falsy, and nothing else. */
  lemma TeamsEnvelope(ts: string, m: map<string, string>, denied: bool)
    ensures var fs := PartialEnvelope("teams", ts, m, denied).fields;
      var teams := Read(m, denied, "customTeams", Null);
      && KeySet(fs) == {"type", "timestamp", "customTeams"}
      && Lookup(fs, "customTeams") == Some(if Truthy(teams) then teams else Arr([]))
  {
  }

  /** Every envelope is a value `JSON.parse` could give back. */
  lemma EnvelopeValid(kind: string, ts: string, m: map<string, string>, denied: bool)
    requires IsPartialKind(kind)
    ensures Valid(PartialEnvelope(kind, ts, m, denied))
  {
    ObjValid(PartialEnvelope(kind, ts, m, denied).fields);
  }

  /** `customTeams` is exported as `[]` whenever the stored value is
      missing or falsy. */
  lemma TeamsDefault(ts: string, m: map<string, string>, denied: bool)
    requires !Truthy(Read(m, denied, "customTeams", Null))
    ensures Lookup(PartialEnvelope("teams", ts, m, denied).fields, "customTeams") == Some(Arr([]))
  {
    TeamsEnvelope(ts, m, denied);
  }

  /** The download's file name: `football_sim_<kind>_<now>.json`. */
  function ExportFileName(kind: string, now: nat): string
  {
    Prefix + kind + "_" + NumberText(now) + ".json"
  }

  // ---------------------------------------------------------------------
  // Import validation and write-back
  // ---------------------------------------------------------------------

  /** The keys `import` does not write back. */
  const EnvelopeKeys: set<string> := {"type", "timestamp"}

  /** The fields of a file `import` accepts: JSON text of an object with a
      truthy `type` and a truthy `timestamp`; `None` for anything else. */
  function ImportFields(text: string): (r: Option<seq<Entry<Value>>>)
    ensures r.Some? ==> Parse(text) == Some(Obj(r.value)) && DistinctKeys(r.value)
    ensures r.Some? ==> HasTruthy(Obj(r.value), "type") && HasTruthy(Obj(r.value), "timestamp")
    ensures Parse(text).Some? && HasTruthy(Parse(text).value, "type") && HasTruthy(Parse(text).value, "timestamp") ==> r.Some?
  {
    match Parse(text)
    case None => None
    case Some(v) =>
      if HasTruthy(v, "type") && HasTruthy(v, "timestamp") then Some(v.fields) else None
  }

  /** A document with distinct keys, valid values and a truthy `type` and
      `timestamp` is accepted with its own fields. */
  lemma Accepted(fields: seq<Entry<Value>>)
    requires DistinctKeys(fields) && ValuesValid(fields)
    requires HasTruthy(Obj(fields), "type") && HasTruthy(Obj(fields), "timestamp")
    ensures ImportFields(Stringify(Obj(fields))) == Some(fields)
  {
    ObjValid(fields);
    RoundTrip(Obj(fields));
  }

  /** Every partial export is accepted by `import`, which writes back its
      payload fields and nothing else. */
  lemma PartialExportAccepted(kind: string, ts: string, m: map<string, string>, denied: bool)
    requires IsPartialKind(kind) && ts != ""
    ensures var doc := PartialEnvelope(kind, ts, m, denied);
      ImportFields(Stringify(doc)) == Some(doc.fields)
  {
    var fs := PartialEnvelope(kind, ts, m, denied).fields;
    assert Prop(Obj(fs), "type") == Some(Str(kind)) && |kind| > 0;
    assert Prop(Obj(fs), "timestamp") == Some(Str(ts));
    Accepted(fs);
  }

  /** Every full export is accepted by `import`. */
  lemma FullExportAccepted(fields: seq<Entry<Value>>, m: map<string, string>, ts: string)
    requires IsFullExport(fields, m, ts) && ts != ""
    ensures ImportFields(Stringify(Obj(fields))) == Some(fields)
  {
    Accepted(fields);
  }

  /** One `SafeStorage.set(key, value)` of a field whose key is not skipped,
      when the write fits. */
  function Write(m: map<string, string>, e: Entry<Value>, skip: set<string>): map<string, string>
  {
    if e.key in skip then m else m[Prefix + e.key := Serialize(e.value)]
  }

  /** The store after writing every field not skipped, in order. */
  function Overlay(m: map<string, string>, fs: seq<Entry<Value>>, skip: set<string>): map<string, string>
    decreases fs
  {
    if fs == [] then m else Overlay(Write(m, fs[0], skip), fs[1..], skip)
  }

  /** Every write of the sequence fits in the quota when it is made. */
  ghost predicate FitsAll(m: map<string, string>, fs: seq<Entry<Value>>, skip: set<string>, quota: nat)
    decreases fs
  {
    fs == [] ||
    ((fs[0].key in skip || StoreSize(m[Prefix + fs[0].key := Serialize(fs[0].value)]) <= quota) &&
     FitsAll(Write(m, fs[0], skip), fs[1..], skip, quota))
  }

  /** After the writes, a short key written holds its field's serialized
      value, and every other key keeps its entry. */
  lemma {:induction false} OverlayAt(m: map<string, string>, fs: seq<Entry<Value>>, skip: set<string>, k: string)
    requires DistinctKeys(fs)
    ensures var o := Overlay(m, fs, skip);
      if IsOwn(k) && ShortKey(k) in KeySet(fs) && ShortKey(k) !in skip then
        k in o && o[k] == Serialize(Lookup(fs, ShortKey(k)).value)
      else
        (k in o <==> k in m) && (k in m ==> o[k] == m[k])
    decreases fs
  {
    if fs != [] {
      OverlayAt(Write(m, fs[0], skip), fs[1..], skip, k);
      PrefixedIsOwn(fs[0].key);
      if IsOwn(k) {
        ShortKeyInverse(k);
        if ShortKey(k) == fs[0].key {
          assert ShortKey(k) !in KeySet(fs[1..]);
        }
      }
    }
  }

  // ---------------------------------------------------------------------
  // Backup and restore
  // ---------------------------------------------------------------------

  /** Text whose decoded value survives being written back with `set`:
      anything but a decoded string that is itself JSON text. */
  ghost predicate Stable(text: string)
  {
    !(Decode(text).Str? && Parse(Decode(text).s).Some?)
  }

  lemma StableReadBack(text: string)
    requires Stable(text)
    ensures Decode(Serialize(Decode(text))) == Decode(text)
  {
    StoreRoundTrip(Decode(text));
  }

  /** A second backup holds the first one inside it. */
  lemma BackupNests(m: map<string, string>, first: seq<Entry<Value>>, ts1: string, second: seq<Entry<Value>>, ts2: string)
    requires IsSnapshot(first, m, ts1)
    requires IsSnapshot(second, m[Prefix + BackupKey := Stringify(Obj(first))], ts2)
    ensures Lookup(second, BackupKey) == Some(Obj(first))
  {
    var m1 := m[Prefix + BackupKey := Stringify(Obj(first))];
    ShortKeysIn(m1, BackupKey);
    ObjValid(first);
    RoundTrip(Obj(first));
  }

  /** The restore writes over keys the snapshot was taken from, so it adds
      no key and removes none. */
  lemma RestoreKeepsKeys(m: map<string, string>, fields: seq<Entry<Value>>, ts: string)
    requires IsSnapshot(fields, m, ts)
    ensures var m1 := m[Prefix + BackupKey := Stringify(Obj(fields))];
      Overlay(m1, fields, {"timestamp"}).Keys == m1.Keys
  {
    var m1 := m[Prefix + BackupKey := Stringify(Obj(fields))];
    var m2 := Overlay(m1, fields, {"timestamp"});
    forall k ensures k in m2 <==> k in m1 {
      OverlayAt(m1, fields, {"timestamp"}, k);
      if IsOwn(k) && ShortKey(k) in KeySet(fields) && ShortKey(k) != "timestamp" {
        ShortKeyInverse(k);
      }
    }
  }

  /** After the restore every short key other than `backup_latest` and
      `timestamp` reads back what it read at backup time, unless it held a
      JSON-looking string. */
  lemma RestoreReadsBack(m: map<string, string>, fields: seq<Entry<Value>>, ts: string, s: string)
    requires IsSnapshot(fields, m, ts)
    requires Prefix + s in m && s != BackupKey && s != "timestamp" && Stable(m[Prefix + s])
    ensures var m1 := m[Prefix + BackupKey := Stringify(Obj(fields))];
      var m2 := Overlay(m1, fields, {"timestamp"});
      Prefix + s in m2 && Decode(m2[Prefix + s]) == Decode(m[Prefix + s])
  {
    var m1 := m[Prefix + BackupKey := Stringify(Obj(fields))];
    ShortKeysIn(m, s);
    PrefixedIsOwn(s);
    OverlayAt(m1, fields, {"timestamp"}, Prefix + s);
    StableReadBack(m[Prefix + s]);
  }

  /** The restore rewrites `backup_latest` with the backup taken before
      this one, when there was one. */
  lemma RestoreBackupKey(m: map<string, string>, fields: seq<Entry<Value>>, ts: string)
    requires IsSnapshot(fields, m, ts)
    ensures var m1 := m[Prefix + BackupKey := Stringify(Obj(fields))];
      var m2 := Overlay(m1, fields, {"timestamp"});
      && Prefix + BackupKey in m2
      && (Prefix + BackupKey in m ==> m2[Prefix + BackupKey] == Serialize(Decode(m[Prefix + BackupKey])))
      && (Prefix + BackupKey !in m ==> m2[Prefix + BackupKey] == Stringify(Obj(fields)))
  {
    var m1 := m[Prefix + BackupKey := Stringify(Obj(fields))];
    PrefixedIsOwn(BackupKey);
    OverlayAt(m1, fields, {"timestamp"}, Prefix + BackupKey);
    ShortKeysIn(m, BackupKey);
  }

  /** The record a backup writes is the one a later restore finds: it
      reads back as the snapshot, whose `timestamp` is truthy. */
  lemma BackupFound(m: map<string, string>, fields: seq<Entry<Value>>, ts: string)
    requires IsSnapshot(fields, m, ts) && ts != ""
    ensures var m1 := m[Prefix + BackupKey := Stringify(Obj(fields))];
      Decode(m1[Prefix + BackupKey]) == Obj(fields) && HasTruthy(Obj(fields), "timestamp")
  {
    ObjValid(fields);
    RoundTrip(Obj(fields));
  }

  // ---------------------------------------------------------------------
  // The page's interval timers
  // ---------------------------------------------------------------------

  /** `setInterval` / `clearInterval`: the live handles with their periods.
      Browsers hand out positive handles and never reuse a live one. */
  class TimerHost {
    var intervals: map<nat, nat>
    var next: nat

    ghost predicate Valid()
      reads this
    {
      next > 0 && forall h | h in intervals :: 0 < h < next
    }

    constructor()
      ensures Valid() && intervals == map[]
    {
      intervals := map[];
      next := 1;
    }

    method SetInterval(period: nat) returns (h: nat)
      requires Valid()
      modifies this
      ensures Valid() && h == old(next) && next == h + 1 && h !in old(intervals) && intervals == old(intervals)[h := period]
    {
      h := next;
      intervals := intervals[h := period];
      next := next + 1;
    }

    method ClearInterval(h: nat)
      requires Valid()
      modifies this
      ensures Valid() && next == old(next) && intervals == old(intervals) - {h}
    {
      intervals := intervals - {h};
    }
  }

  // ---------------------------------------------------------------------
  // DataManager
  // ---------------------------------------------------------------------

  /** The `message` and `stack` of an error a `catch` receives; their text
      comes from the browser. */
  datatype Thrown = Thrown(message: string, stack: string)

  /** `{ type: kind, message: error.message, stack: error.stack }`, what
      the `catch` blocks of `DataManager` pass to `ErrorHandler.log`. */
  function CaughtInfo(kind: string, e: Thrown): (r: seq<Entry<Value>>)
    ensures DistinctKeys(r) && KeySet(r) == {"type", "message", "stack"}
    ensures Lookup(r, "type") == Some(Str(kind)) && Lookup(r, "message") == Some(Str(e.message))
  {
    Cons("type", Str(kind), Cons("message", Str(e.message), Cons("stack", Str(e.stack), [])))
  }

  /** The error `import` catches for a file it rejects: its own
      'Invalid data format' when the text is JSON other than `null`;
      otherwise what the browser throws (the `SyntaxError` of `JSON.parse`,
      or the `TypeError` of reading `type` of `null`). */
  function ImportError(text: string, thrown: Thrown): (r: Thrown)
    ensures Parse(text).Some? && Parse(text).value != Null ==> r.message == "Invalid data format"
    ensures Parse(text).None? || Parse(text).value == Null ==> r == thrown
  {
    if Parse(text).Some? && Parse(text).value != Null then Thrown("Invalid data format", thrown.stack)
    else thrown
  }

  /** The record `log` keeps when `import` rejects `text`. */
  function ImportFailure(text: string, ts: string, url: string, thrown: Thrown): seq<Entry<Value>>
  {
    ErrorRecord(CaughtInfo("import", ImportError(text, thrown)), ts, url)
  }

  /** Text that is not JSON is rejected. */
  lemma NotJsonRejected()
    ensures ImportFields("hello").None?
  {
    assert SkipWs("hello") == "hello";
  }

  /** An object without a `timestamp` is rejected. */
  lemma NoTimestampRejected()
    ensures ImportFields(Stringify(Obj([Entry("type", Str("full"))]))).None?
  {
    var fs := [Entry("type", Str("full"))];
    ObjValid(fs);
    RoundTrip(Obj(fs));
  }

  /** For either rejected file, the store `Import` leaves when the log
      entry fits gains the `last_error` entry it did not have. */
  lemma RejectedImportWrites(m: map<string, string>, ts: string, url: string, thrown: Thrown)
    requires Prefix + LastErrorKey !in m
    ensures forall text | text in ["hello", Stringify(Obj([Entry("type", Str("full"))]))] ::
      && ImportFields(text).None?
      && var after := m[Prefix + LastErrorKey := Serialize(Obj(ImportFailure(text, ts, url, thrown)))];
         after != m && after.Keys == m.Keys + {Prefix + LastErrorKey}
  {
    NotJsonRejected();
    NoTimestampRejected();
    var k := Prefix + LastErrorKey;
    forall text | text in ["hello", Stringify(Obj([Entry("type", Str("full"))]))]
      ensures var after := m[k := Serialize(Obj(ImportFailure(text, ts, url, thrown)))];
        after != m && after.Keys == m.Keys + {k}
    {
      var after := m[k := Serialize(Obj(ImportFailure(text, ts, url, thrown)))];
      assert k in after.Keys && k !in m.Keys;
    }
  }

  datatype ImportOutcome =
    | Imported     // the promise resolves to true
    | NoFile       // rejected with 'No file selected'
    | Rejected     // rejected: not JSON, or no type / timestamp

  class DataManager {
    const store: SafeStorage
    const timers: TimerHost
    /** The `ErrorHandler` the `catch` blocks log to. */
    const handler: ErrorHandler
    var autoBackupInterval: Option<nat>
    var lastBackupTime: Option<nat>

    /** The one live interval, if any, is the auto-backup. */
    ghost predicate Valid()
      reads this, timers
    {
      && timers.Valid()
      && (autoBackupInterval.Some? ==> autoBackupInterval.value > 0)
      && timers.intervals.Keys == (if autoBackupInterval.Some? then {autoBackupInterval.value} else {})
    }

    /** The handler logs to the same storage and keeps its bound. */
    ghost predicate Linked()
      reads this, handler
    {
      handler.store == store && handler.Valid()
    }

    constructor(store: SafeStorage, timers: TimerHost, handler: ErrorHandler)
      requires timers.Valid() && timers.intervals == map[]
      requires handler.store == store && handler.Valid()
      ensures this.store == store && this.timers == timers && this.handler == handler
      ensures Valid() && Linked()
      ensures autoBackupInterval.None? && lastBackupTime.None?
    {
      this.store := store;
      this.timers := timers;
      this.handler := handler;
      autoBackupInterval := None;
      lastBackupTime := None;
    }

    /** The loop over `Object.keys(localStorage)` shared by `export` and
        `backup`: every entry of the namespace under its short key. */
    method CollectOwn(ks: seq<string>) returns (data: seq<Entry<Value>>)
      requires !store.ls.denied
      requires Distinct(ks) && forall k :: k in ks <==> k in store.ls.items
      ensures Collected(data, store.ls.items)
    {
      data := [];
      for i := 0 to |ks|
        invariant DistinctKeys(data) && ValuesValid(data)
        invariant forall s :: s in KeySet(data) <==> Prefix + s in Elems(ks[..i])
        invariant forall s | s in KeySet(data) :: Prefix + s in store.ls.items && Lookup(data, s) == Some(Decode(store.ls.items[Prefix + s]))
      {
        ElemsPrefix(ks, i);
        if IsOwn(ks[i]) {
          var shortKey := ShortKey(ks[i]);
          ShortKeyInverse(ks[i]);
          assert store.Get(shortKey, Null) == Decode(store.ls.items[Prefix + shortKey]);
          forall s ensures Prefix + s == ks[i] <==> s == shortKey {
            if Prefix + s == ks[i] { PrefixInjective(s, shortKey); }
          }
          data := Put(data, shortKey, store.Get(shortKey, Null));
        } else {
          forall s ensures Prefix + s != ks[i] {
            PrefixedIsOwn(s);
          }
        }
      }
      assert ks[..|ks|] == ks;
      forall s ensures s in KeySet(data) <==> s in ShortKeys(store.ls.items) {
        ShortKeysIn(store.ls.items, s);
      }
    }

    /** `export(kind)` at time `ts` on page `url`: the document offered for
        download and its file name; `false` when the store cannot be
        listed for a full export, which `thrown` reports to the log. */
    method Export(kind: string, ts: string, now: nat, url: string, thrown: Thrown) returns (ok: bool, doc: Value, fileName: string)
      requires Linked()
      modifies handler, store, store.ls
      ensures Linked() && store.ls.items == old(store.ls.items)
      ensures IsPartialKind(kind) ==> ok && doc == PartialEnvelope(kind, ts, store.ls.items, store.ls.denied)
      ensures !IsPartialKind(kind) ==> (ok <==> !store.ls.denied)
      ensures !IsPartialKind(kind) && ok ==> doc.Obj? && IsFullExport(doc.fields, store.ls.items, ts)
      ensures ok ==> fileName == ExportFileName(kind, now) && handler.errors == old(handler.errors)
      ensures !ok ==> handler.errors == Capped.Newest(old(handler.errors) + [ErrorRecord(CaughtInfo("export", thrown), ts, url)], MaxErrors)
    {
      if IsPartialKind(kind) {
        doc := PartialEnvelope(kind, ts, store.ls.items, store.ls.denied);
      } else {
        var keys := store.ls.Keys();
        if keys.None? {
          handler.Log(CaughtInfo("export", thrown), ts, url);
          return false, Null, "";
        }
        var data := CollectOwn(keys.value);
        FullExportOf(data, store.ls.items, ts);
        data := Put(data, "type", Str("full"));
        data := Put(data, "timestamp", Str(ts));
        doc := Obj(data);
      }
      return true, doc, ExportFileName(kind, now);
    }

    /** `SafeStorage.set` of every field whose key is not skipped, in
        order; when every write fits, the store ends as `Overlay` says. */
    method WriteFields(fs: seq<Entry<Value>>, skip: set<string>)
      modifies store, store.ls
      ensures SameForeign(store.ls.items, old(store.ls.items))
      ensures store.ls.denied ==> store.ls.items == old(store.ls.items)
      ensures !store.ls.denied && FitsAll(old(store.ls.items), fs, skip, store.ls.quota) ==>
        store.ls.items == Overlay(old(store.ls.items), fs, skip)
    {
      for i := 0 to |fs|
        invariant SameForeign(store.ls.items, old(store.ls.items))
        invariant store.ls.denied ==> store.ls.items == old(store.ls.items)
        invariant !store.ls.denied && FitsAll(old(store.ls.items), fs, skip, store.ls.quota) ==>
          FitsAll(store.ls.items, fs[i..], skip, store.ls.quota) &&
          Overlay(store.ls.items, fs[i..], skip) == Overlay(old(store.ls.items), fs, skip)
      {
        assert fs[i..][0] == fs[i] && fs[i..][1..] == fs[i + 1..];
        if fs[i].key !in skip {
          var _, _ := store.Set(fs[i].key, fs[i].value, 0);
        }
      }
      assert fs[|fs|..] == [];
    }

    /** `import()`, given the chosen file's text (`None`: no file), the
        time `ts` and page `url` of the log entry a rejected file makes, and
        the error the browser throws when the text is not usable JSON. */
    method Import(file: Option<string>, ts: string, url: string, thrown: Thrown) returns (r: ImportOutcome)
      requires Linked()
      modifies handler, store, store.ls
      ensures Linked() && SameForeign(store.ls.items, old(store.ls.items))
      ensures file.None? ==> r == NoFile && store.ls.items == old(store.ls.items) && handler.errors == old(handler.errors)
      ensures file.Some? && ImportFields(file.value).Some? ==> r == Imported && handler.errors == old(handler.errors)
      ensures (file.Some? && ImportFields(file.value).Some? && !store.ls.denied &&
               FitsAll(old(store.ls.items), ImportFields(file.value).value, EnvelopeKeys, store.ls.quota))
        ==> store.ls.items == Overlay(old(store.ls.items), ImportFields(file.value).value, EnvelopeKeys)
      ensures file.Some? && ImportFields(file.value).None? ==> r == Rejected
      ensures file.Some? && ImportFields(file.value).None? ==>
        var record := ImportFailure(file.value, ts, url, thrown);
        && handler.errors == Capped.Newest(old(handler.errors) + [record], MaxErrors)
        && SubMap(store.ls.items - {Prefix + LastErrorKey}, old(store.ls.items))
        && (store.ls.denied ==> store.ls.items == old(store.ls.items))
        && (!store.ls.denied && StoreSize(old(store.ls.items)[Prefix + LastErrorKey := Serialize(Obj(record))]) <= store.ls.quota
            ==> store.ls.items == old(store.ls.items)[Prefix + LastErrorKey := Serialize(Obj(record))])
    {
      if file.None? {
        return NoFile;
      }
      var fields := ImportFields(file.value);
      if fields.None? {
        handler.Log(CaughtInfo("import", ImportError(file.value, thrown)), ts, url);
        return Rejected;
      }
      WriteFields(fields.value, EnvelopeKeys);
      return Imported;
    }

    /** `import()` made all-or-nothing: a rejected file changes no stored entry.
        The rejection is still kept in the error buffer, but not written to
        storage. */
    method ImportAtomic(file: Option<string>, ts: string, url: string, thrown: Thrown) returns (r: ImportOutcome)
      requires Linked()
      modifies handler, store, store.ls
      ensures Linked() && SameForeign(store.ls.items, old(store.ls.items))
      ensures file.None? ==> r == NoFile && store.ls.items == old(store.ls.items) && handler.errors == old(handler.errors)
      ensures file.Some? && ImportFields(file.value).Some? ==> r == Imported && handler.errors == old(handler.errors)
      ensures (file.Some? && ImportFields(file.value).Some? && !store.ls.denied &&
               FitsAll(old(store.ls.items), ImportFields(file.value).value, EnvelopeKeys, store.ls.quota))
        ==> store.ls.items == Overlay(old(store.ls.items), ImportFields(file.value).value, EnvelopeKeys)
      ensures file.Some? && ImportFields(file.value).None? ==>
        && r == Rejected && store.ls.items == old(store.ls.items)
        && handler.errors == Capped.Newest(old(handler.errors) + [ImportFailure(file.value, ts, url, thrown)], MaxErrors)
    {
      if file.None? {
        return NoFile;
      }
      var fields := ImportFields(file.value);
      if fields.None? {
        var _ := handler.Record(CaughtInfo("import", ImportError(file.value, thrown)), ts, url);
        return Rejected;
      }
      WriteFields(fields.value, EnvelopeKeys);
      return Imported;
    }

    /** `backup(now)` at time `ts` on page `url`: stores the snapshot of the
        namespace under `backup_latest`.  It answers `true` whether or not
        that write fits; when the store cannot be listed it logs `thrown`
        and answers `false`. */
    method Backup(ts: string, now: nat, url: string, thrown: Thrown) returns (ok: bool, ghost snapshot: seq<Entry<Value>>)
      requires Linked()
      modifies this, handler, store, store.ls
      ensures Linked()
      ensures ok <==> !store.ls.denied
      ensures ok ==> handler.errors == old(handler.errors)
      ensures !ok ==> handler.errors == Capped.Newest(old(handler.errors) + [ErrorRecord(CaughtInfo("backup", thrown), ts, url)], MaxErrors)
      ensures autoBackupInterval == old(autoBackupInterval)
      ensures ok ==> IsSnapshot(snapshot, old(store.ls.items), ts) && lastBackupTime == Some(now)
      ensures !ok ==> store.ls.items == old(store.ls.items) && lastBackupTime == old(lastBackupTime)
      ensures SameForeign(store.ls.items, old(store.ls.items))
      ensures ok && StoreSize(old(store.ls.items)[Prefix + BackupKey := Stringify(Obj(snapshot))]) <= store.ls.quota ==>
        store.ls.items == old(store.ls.items)[Prefix + BackupKey := Stringify(Obj(snapshot))]
    {
      var keys := store.ls.Keys();
      if keys.None? {
        handler.Log(CaughtInfo("backup", thrown), ts, url);
        return false, [];
      }
      var backupData := CollectOwn(keys.value);
      SnapshotOf(backupData, store.ls.items, ts);
      backupData := Put(backupData, "timestamp", Str(ts));
      var _, _ := store.Set(BackupKey, Obj(backupData), 0);
      lastBackupTime := Some(now);
      return true, backupData;
    }

    /** `restoreBackup()`, given the answer to its `confirm()`. */
    method RestoreBackup(confirmed: bool) returns (ok: bool)
      modifies store, store.ls
      ensures SameForeign(store.ls.items, old(store.ls.items))
      ensures !HasTruthy(old(store.Get(BackupKey, Null)), "timestamp") ==> !ok && store.ls.items == old(store.ls.items)
      ensures HasTruthy(old(store.Get(BackupKey, Null)), "timestamp") ==> ok
      ensures !confirmed ==> store.ls.items == old(store.ls.items)
      ensures var b := old(store.Get(BackupKey, Null));
        (HasTruthy(b, "timestamp") && confirmed && !store.ls.denied && FitsAll(old(store.ls.items), b.fields, {"timestamp"}, store.ls.quota)
         ==> store.ls.items == Overlay(old(store.ls.items), b.fields, {"timestamp"}))
    {
      var backup := store.Get(BackupKey, Null);
      if !Truthy(backup) || !HasTruthy(backup, "timestamp") {
        return false;
      }
      if confirmed {
        WriteFields(backup.fields, {"timestamp"});
      }
      return true;
    }

    /** `startAutoBackup()`: replaces any running interval by a fresh one. */
    method StartAutoBackup()
      requires Valid()
      modifies this, timers
      ensures Valid() && autoBackupInterval.Some?
      ensures timers.intervals == map[autoBackupInterval.value := AutoBackupPeriod]
      ensures autoBackupInterval.value !in old(timers.intervals)
      ensures lastBackupTime == old(lastBackupTime)
    {
      if autoBackupInterval.Some? {
        timers.ClearInterval(autoBackupInterval.value);
      }
      assert forall k :: k !in timers.intervals;
      assert timers.intervals == map[];
      var h := timers.SetInterval(AutoBackupPeriod);
      autoBackupInterval := Some(h);
    }

    /** `stopAutoBackup()`: clears the interval; nothing to do when none
        runs. */
    method StopAutoBackup()
      requires Valid()
      modifies this, timers
      ensures Valid() && autoBackupInterval.None? && timers.intervals == map[]
      ensures old(autoBackupInterval).None? ==> timers.intervals == old(timers.intervals)
      ensures lastBackupTime == old(lastBackupTime)
    {
      if autoBackupInterval.Some? {
        timers.ClearInterval(autoBackupInterval.value);
        autoBackupInterval := None;
      }
      assert forall k :: k !in timers.intervals;
      assert timers.intervals == map[];
    }
  }
}
