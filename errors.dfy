/** The global error log: a buffer of the newest error records, each
    also written to storage under `last_error`. */
module Errors {
  import opened Base
  import opened Assoc
  import opened Json
  import opened Storage
  import Capped

  /** The most records the buffer keeps (`maxErrors`). */
  const MaxErrors: nat := 100

  /** The storage key (without the namespace prefix) of the newest record. */
  const LastErrorKey: string := "last_error"

  /** `{...errorInfo, timestamp, url}`: the caller's fields in their order,
      then `timestamp` and `url`, which overwrite fields of the same name
      in place. */
  function ErrorRecord(info: seq<Entry<Value>>, timestamp: string, url: string): (r: seq<Entry<Value>>)
    ensures KeySet(r) == KeySet(info) + {"timestamp", "url"}
    ensures Lookup(r, "timestamp") == Some(Str(timestamp)) && Lookup(r, "url") == Some(Str(url))
    ensures forall k | k != "timestamp" && k != "url" :: Lookup(r, k) == Lookup(info, k)
    ensures DistinctKeys(info) ==> DistinctKeys(r)
  {
    Put(Put(info, "timestamp", Str(timestamp)), "url", Str(url))
  }

  /** Logging every record of `records` in turn on an empty buffer leaves
      exactly the newest `MaxErrors` of them, oldest first. */
  lemma {:induction false} LogKeepsNewest(records: seq<seq<Entry<Value>>>)
    ensures Capped.PushAll([], records, MaxErrors) == Capped.Newest(records, MaxErrors)
  {
    Capped.PushAllNewest([], records, MaxErrors);
    assert [] + records == records;
  }

  /** After 150 records the buffer holds records 51 to 150 (indices 50 to
      149), in order. */
  lemma {:induction false} HundredFiftyLogs(records: seq<seq<Entry<Value>>>)
    requires |records| == 150
    ensures Capped.PushAll([], records, MaxErrors) == records[50..]
  {
    LogKeepsNewest(records);
  }

  class ErrorHandler {
    var errors: seq<seq<Entry<Value>>>
    var initialized: bool
    /** The window listeners added (`error` and `unhandledrejection`). */
    var listeners: nat
    const store: SafeStorage

    ghost predicate Valid()
      reads this
    {
      |errors| <= MaxErrors
    }

    constructor(store: SafeStorage)
      ensures Valid() && errors == [] && !initialized && listeners == 0 && this.store == store
    {
      errors := [];
      initialized := false;
      listeners := 0;
      this.store := store;
    }

    /** `init()`: the two window listeners are added once; a second call
        does nothing. */
    method Init()
      modifies this
      ensures initialized
      ensures listeners == old(listeners) + (if old(initialized) then 0 else 2)
      ensures errors == old(errors)
    {
      if initialized {
        return;
      }
      listeners := listeners + 2;
      initialized := true;
    }

    /** `log(errorInfo)`, at time `timestamp` on page `url`: the record is
        appended, the oldest one dropped beyond `MaxErrors`, and the record
        saved with `set('last_error', record)`. */
    method Log(info: seq<Entry<Value>>, timestamp: string, url: string)
      requires Valid()
      modifies this, store, store.ls
      ensures Valid()
      ensures errors == Capped.Newest(old(errors) + [ErrorRecord(info, timestamp, url)], MaxErrors)
      ensures initialized == old(initialized) && listeners == old(listeners)
      ensures SameForeign(store.ls.items, old(store.ls.items))
      ensures SubMap(store.ls.items - {Prefix + LastErrorKey}, old(store.ls.items))
      ensures store.ls.denied ==> store.ls.items == old(store.ls.items)
      ensures var text := Serialize(Obj(ErrorRecord(info, timestamp, url)));
        (!store.ls.denied && StoreSize(old(store.ls.items)[Prefix + LastErrorKey := text]) <= store.ls.quota)
        ==> store.ls.items == old(store.ls.items)[Prefix + LastErrorKey := text]
    {
      var record := Record(info, timestamp, url);
      var ok;
      ghost var attempts;
      ok, attempts := store.Set(LastErrorKey, Obj(record), 0);
    }

    /** The first half of `log`: the record is appended to the buffer and
        the oldest one dropped beyond `MaxErrors`; storage is not touched. */
    method Record(info: seq<Entry<Value>>, timestamp: string, url: string) returns (record: seq<Entry<Value>>)
      requires Valid()
      modifies this
      ensures Valid() && record == ErrorRecord(info, timestamp, url)
      ensures errors == Capped.Newest(old(errors) + [record], MaxErrors)
      ensures initialized == old(initialized) && listeners == old(listeners)
    {
      record := ErrorRecord(info, timestamp, url);
      errors := errors + [record];
      if |errors| > MaxErrors {
        errors := errors[1..];
      }
      assert errors == Capped.Push(old(errors), record, MaxErrors);
    }

    /** `getErrors()`: the buffer itself, oldest first. */
    function GetErrors(): (r: seq<seq<Entry<Value>>>)
      requires Valid()
      reads this
      ensures r == errors && |r| <= MaxErrors
    {
      errors
    }

    /** `clearErrors()`. */
    method ClearErrors()
      modifies this
      ensures Valid() && errors == []
      ensures initialized == old(initialized) && listeners == old(listeners)
    {
      errors := [];
    }
  }
}
