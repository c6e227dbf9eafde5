/** `SafeStorage` and `DataCompressor` (modular/js/core/storage.js) over an
    explicit model of the browser's `localStorage`. */
module Storage {
  import opened Base
  import opened Json
  import opened Codec

  /** The namespace every key of the application lives in. */
  const Prefix: string := "football_sim_"

  predicate IsOwn(k: string)
  {
    |Prefix| <= |k| && k[..|Prefix|] == Prefix
  }

  lemma PrefixedIsOwn(key: string)
    ensures IsOwn(Prefix + key) && (Prefix + key)[|Prefix|..] == key
  {
    assert (Prefix + key)[..|Prefix|] == Prefix;
  }

  // ---------------------------------------------------------------------
  // Sizes of map entries
  // ---------------------------------------------------------------------

  /** The sum of `f` over the entries of `m` whose keys are in `ks`. */
  ghost function SumOver(m: map<string, string>, ks: set<string>, f: (string, string) -> nat): nat
    requires ks <= m.Keys
    decreases ks
  {
    if ks == {} then 0
    else
      var k :| k in ks;
      f(k, m[k]) + SumOver(m, ks - {k}, f)
  }

  /** The sum does not depend on the order the entries are taken in. */
  lemma {:induction false} SumSplit(m: map<string, string>, ks: set<string>, k: string, f: (string, string) -> nat)
    requires ks <= m.Keys && k in ks
    ensures SumOver(m, ks, f) == f(k, m[k]) + SumOver(m, ks - {k}, f)
    decreases ks
  {
    var j :| j in ks && SumOver(m, ks, f) == f(j, m[j]) + SumOver(m, ks - {j}, f);
    if j != k {
      SumSplit(m, ks - {j}, k, f);
      SumSplit(m, ks - {k}, j, f);
      assert ks - {j} - {k} == ks - {k} - {j};
    }
  }

  /** What the browser charges against the quota for one entry. */
  function EntrySize(k: string, v: string): nat
  {
    |k| + |v|
  }

  ghost function StoreSize(m: map<string, string>): nat
  {
    SumOver(m, m.Keys, EntrySize)
  }

  /** What `getUsage` counts for one entry: the blob size of the value,
      for keys of the namespace only. */
  function UsageWeight(k: string, v: string): nat
  {
    if IsOwn(k) then Utf8Size(v) else 0
  }

  ghost function Usage(m: map<string, string>): nat
  {
    SumOver(m, m.Keys, UsageWeight)
  }

  lemma {:induction false} SumOverAgree(m: map<string, string>, n: map<string, string>, ks: set<string>)
    requires ks <= m.Keys && ks <= n.Keys
    requires forall k | k in ks :: UsageWeight(k, m[k]) == UsageWeight(k, n[k])
    ensures SumOver(m, ks, UsageWeight) == SumOver(n, ks, UsageWeight)
    decreases ks
  {
    if ks != {} {
      var k :| k in ks;
      SumSplit(m, ks, k, UsageWeight);
      SumSplit(n, ks, k, UsageWeight);
      SumOverAgree(m, n, ks - {k});
    }
  }

  lemma {:induction false} SumOverZero(m: map<string, string>, ks: set<string>)
    requires ks <= m.Keys && forall k | k in ks :: !IsOwn(k)
    ensures SumOver(m, ks, UsageWeight) == 0
    decreases ks
  {
    if ks != {} {
      var k :| k in ks;
      SumSplit(m, ks, k, UsageWeight);
      SumOverZero(m, ks - {k});
    }
  }

  /** `getUsage` counts the namespace only: entries outside it, whatever
      they hold, add nothing. */
  lemma UsageIgnoresForeign(m: map<string, string>)
    ensures Usage(m) == Usage(map k | k in m && IsOwn(k) :: m[k])
  {
    var own := map k | k in m && IsOwn(k) :: m[k];
    var foreign := m.Keys - own.Keys;
    assert forall k | k in foreign :: !IsOwn(k);
    SumOverAgree(m, own, own.Keys);
    SumOverZero(m, foreign);
    SumUnion(m, own.Keys, foreign);
    assert own.Keys + foreign == m.Keys;
    assert Usage(m) == SumOver(m, own.Keys + foreign, UsageWeight);
  }

  lemma {:induction false} SumUnion(m: map<string, string>, a: set<string>, b: set<string>)
    requires a <= m.Keys && b <= m.Keys && a !! b
    ensures SumOver(m, a + b, UsageWeight) == SumOver(m, a, UsageWeight) + SumOver(m, b, UsageWeight)
    decreases b
  {
    if b == {} {
      assert a + b == a;
    } else {
      var k :| k in b;
      SumSplit(m, a + b, k, UsageWeight);
      SumSplit(m, b, k, UsageWeight);
      assert a + b - {k} == a + (b - {k});
      SumUnion(m, a, b - {k});
    }
  }

  // ---------------------------------------------------------------------
  // localStorage
  // ---------------------------------------------------------------------

  datatype StorageError = QuotaExceededError | SecurityError

  ghost function Elems(s: seq<string>): set<string>
  {
    set k | k in s
  }

  predicate Distinct(s: seq<string>)
  {
    forall i, j | 0 <= i < j < |s| :: s[i] != s[j]
  }

  /** The browser's `localStorage`: string keys to string values, a quota
      on the total size, and a flag for a browser that refuses access
      (every call then throws a `SecurityError`). */
  class LocalStorage {
    var items: map<string, string>
    const quota: nat
    const denied: bool

    constructor(quota: nat, denied: bool)
      ensures this.quota == quota && this.denied == denied && items == map[]
    {
      this.quota := quota;
      this.denied := denied;
      items := map[];
    }

    /** `Object.keys(localStorage)`: every key once, in an order the
        browser chooses. */
    method Keys() returns (r: Option<seq<string>>)
      ensures r.None? <==> denied
      ensures r.Some? ==> Distinct(r.value) && forall k :: k in r.value <==> k in items
    {
      if denied {
        return None;
      }
      var ks: seq<string> := [];
      var rest := items.Keys;
      while rest != {}
        invariant rest <= items.Keys
        invariant Distinct(ks)
        invariant forall k :: k in ks <==> k in items && k !in rest
        decreases |rest|
      {
        var k :| k in rest;
        ks := ks + [k];
        rest := rest - {k};
      }
      return Some(ks);
    }

    /** `getItem(key)`: `null` (here `None`) for a missing key. */
    function GetItem(key: string): (r: Result<Option<string>, StorageError>)
      reads this
      ensures denied <==> r.Err?
      ensures r.Ok? ==> (r.value.Some? <==> key in items) && (key in items ==> r.value.value == items[key])
    {
      if denied then Err(SecurityError)
      else if key in items then Ok(Some(items[key]))
      else Ok(None)
    }

    /** The quota the map would use with `key` set to `value`. */
    method SizeWith(key: string, value: string) returns (n: nat)
      ensures n == StoreSize(items[key := value])
    {
      var m := items[key := value];
      var rest := m.Keys;
      n := 0;
      while rest != {}
        invariant rest <= m.Keys
        invariant n + SumOver(m, rest, EntrySize) == StoreSize(m)
        decreases |rest|
      {
        var k :| k in rest;
        SumSplit(m, rest, k, EntrySize);
        n := n + EntrySize(k, m[k]);
        rest := rest - {k};
      }
    }

    /** `setItem(key, value)`: throws a `QuotaExceededError`, storing
        nothing, when the entry does not fit. */
    method SetItem(key: string, value: string) returns (r: Result<(), StorageError>)
      modifies this
      ensures denied ==> r == Err(SecurityError) && items == old(items)
      ensures !denied && StoreSize(old(items)[key := value]) > quota ==> r == Err(QuotaExceededError) && items == old(items)
      ensures !denied && StoreSize(old(items)[key := value]) <= quota ==> r == Ok(()) && items == old(items)[key := value]
    {
      if denied {
        return Err(SecurityError);
      }
      var n := SizeWith(key, value);
      if n > quota {
        return Err(QuotaExceededError);
      }
      items := items[key := value];
      return Ok(());
    }

    /** `removeItem(key)`; removing a missing key is not an error. */
    method RemoveItem(key: string) returns (r: Result<(), StorageError>)
      modifies this
      ensures denied ==> r == Err(SecurityError) && items == old(items)
      ensures !denied ==> r == Ok(()) && items == old(items) - {key}
    {
      if denied {
        return Err(SecurityError);
      }
      items := items - {key};
      return Ok(());
    }
  }

  // ---------------------------------------------------------------------
  // Decoding on read, encoding on write
  // ---------------------------------------------------------------------

  /** What `set` stores for a value: a string as it is, anything else as
      JSON text. */
  function Serialize(v: Value): string
  {
    match v
    case Str(s) => s
    case _ => Stringify(v)
  }

  /** What `get` makes of stored text: the JSON value it spells, or the
      text itself when it is not JSON. */
  function Decode(text: string): (r: Value)
    ensures Valid(r)
    ensures !r.Str? ==> Parse(text) == Some(r)
    ensures r.Str? ==> r.s == text || Parse(text) == Some(r)
    ensures Parse(text).Some? ==> r == Parse(text).value
    ensures Parse(text).None? ==> r == Str(text)
  {
    match Parse(text)
    case Some(v) => v
    case None => Str(text)
  }

  /** A value comes back from the store as it went in, unless it is a
      string that is itself JSON text. */
  lemma StoreRoundTrip(v: Value)
    requires Valid(v)
    ensures !v.Str? || Parse(v.s).None? ==> Decode(Serialize(v)) == v
    ensures v.Str? && Parse(v.s).Some? ==> Decode(Serialize(v)) == Parse(v.s).value
  {
    if !v.Str? {
      RoundTrip(v);
    }
  }

  /** The string "42" is stored as the text 42 and read back as a number. */
  lemma JsonLookingStringChanges()
    ensures Decode(Serialize(Str("42"))) == Num(42)
  {
    RoundTrip(Num(42));
    assert Stringify(Num(42)) == "42";
  }

  /** What `get(key, defaultValue)` returns for a store holding `m`, or
      refusing access when `denied`. */
  function Read(m: map<string, string>, denied: bool, key: string, default: Value): (r: Value)
    ensures denied || Prefix + key !in m ==> r == default
    ensures !denied && Prefix + key in m ==> r == Decode(m[Prefix + key])
    ensures Valid(default) ==> Valid(r)
  {
    if denied || Prefix + key !in m then default else Decode(m[Prefix + key])
  }

  // ---------------------------------------------------------------------
  // cleanup's ordering
  // ---------------------------------------------------------------------

  /** One row of `cleanup`'s list: a key and the blob size of its value. */
  datatype Sized = Sized(key: string, size: nat)

  predicate Descending(s: seq<Sized>)
  {
    forall i, j | 0 <= i < j < |s| :: s[i].size >= s[j].size
  }

  lemma ConsDescending(h: Sized, t: seq<Sized>)
    requires Descending(t) && (t != [] ==> h.size >= t[0].size)
    ensures Descending([h] + t)
  {
    forall i, j | 0 <= i < j < |t| + 1 ensures ([h] + t)[i].size >= ([h] + t)[j].size {
      if i == 0 {
        assert t[0].size >= t[j - 1].size || j == 1;
      }
    }
  }

  /** Puts `x` after every row at least as large (so the sort is stable). */
  function InsertDesc(x: Sized, s: seq<Sized>): (r: seq<Sized>)
    requires Descending(s)
    ensures |r| == |s| + 1 && (r[0] == x || (s != [] && r[0] == s[0]))
    ensures Descending(r) && multiset(r) == multiset(s) + multiset{x}
  {
    if s == [] then [x]
    else if s[0].size >= x.size then
      var t := InsertDesc(x, s[1..]);
      assert t[0].size <= s[0].size by {
        if t[0] != x { assert t[0] == s[1]; }
      }
      ConsDescending(s[0], t);
      assert multiset(s) == multiset{s[0]} + multiset(s[1..]) by {
        assert s == [s[0]] + s[1..];
      }
      [s[0]] + t
    else
      ConsDescending(x, s);
      [x] + s
  }

  /** `items.sort((a, b) => b.size - a.size)`: largest first. */
  function SortDesc(s: seq<Sized>): (r: seq<Sized>)
    ensures Descending(r) && multiset(r) == multiset(s) && |r| == |s|
  {
    if s == [] then []
    else
      assert s == s[..|s| - 1] + [s[|s| - 1]];
      InsertDesc(s[|s| - 1], SortDesc(s[..|s| - 1]))
  }

  function KeysOf(s: seq<Sized>): (r: set<string>)
    ensures |r| <= |s|
  {
    if s == [] then {} else {s[0].key} + KeysOf(s[1..])
  }

  lemma {:induction false} KeysOfIn(s: seq<Sized>, k: string)
    ensures k in KeysOf(s) <==> exists i | 0 <= i < |s| :: s[i].key == k
  {
    if s != [] {
      KeysOfIn(s[1..], k);
      if k in KeysOf(s[1..]) {
        var i :| 0 <= i < |s[1..]| && s[1..][i].key == k;
        assert s[i + 1].key == k;
      }
      if exists i | 0 <= i < |s| :: s[i].key == k {
        var i :| 0 <= i < |s| && s[i].key == k;
        if i > 0 { assert s[1..][i - 1].key == k; }
      }
    }
  }

  lemma {:induction false} KeysOfAppend(a: seq<Sized>, b: seq<Sized>)
    ensures KeysOf(a + b) == KeysOf(a) + KeysOf(b)
  {
    if a == [] {
      assert a + b == b;
    } else {
      assert (a + b)[1..] == a[1..] + b;
      KeysOfAppend(a[1..], b);
    }
  }

  /** With no key twice, the first `t` rows carry `t` keys. */
  lemma PrefixKeys(s: seq<Sized>, t: nat)
    requires t <= |s| && |KeysOf(s)| == |s|
    ensures |KeysOf(s[..t])| == t
  {
    assert s == s[..t] + s[t..];
    KeysOfAppend(s[..t], s[t..]);
    var a := KeysOf(s[..t]);
    var b := KeysOf(s[t..]);
    assert |a + b| <= |a| + |b| by {
      assert |a + b| == |a| + |b - a|;
    }
  }

  lemma KeysOfPermutation(s: seq<Sized>, r: seq<Sized>)
    requires multiset(r) == multiset(s)
    ensures KeysOf(r) == KeysOf(s)
  {
    forall k ensures k in KeysOf(r) <==> k in KeysOf(s) {
      KeysOfIn(r, k);
      KeysOfIn(s, k);
      if k in KeysOf(r) {
        var i :| 0 <= i < |r| && r[i].key == k;
        assert r[i] in multiset(s);
        var j :| 0 <= j < |s| && s[j] == r[i];
      }
      if k in KeysOf(s) {
        var i :| 0 <= i < |s| && s[i].key == k;
        assert s[i] in multiset(r);
        var j :| 0 <= j < |r| && r[j] == s[i];
      }
    }
  }

  /** Every row names an entry of `m` and carries its value's blob size. */
  predicate Measures(s: seq<Sized>, m: map<string, string>)
  {
    forall i | 0 <= i < |s| :: s[i].key in m && s[i].size == Utf8Size(m[s[i].key])
  }

  lemma MeasuresPermutation(s: seq<Sized>, r: seq<Sized>, m: map<string, string>)
    requires multiset(r) == multiset(s) && Measures(s, m)
    ensures Measures(r, m)
  {
    forall i | 0 <= i < |r| ensures r[i].key in m && r[i].size == Utf8Size(m[r[i].key]) {
      assert r[i] in multiset(s);
      var j :| 0 <= j < |s| && s[j] == r[i];
    }
  }

  // ---------------------------------------------------------------------
  // SafeStorage
  // ---------------------------------------------------------------------

  /** `m` keeps some of the entries of `n`, unchanged. */
  ghost predicate SubMap(m: map<string, string>, n: map<string, string>)
  {
    forall k | k in m :: k in n && m[k] == n[k]
  }

  /** `m` and `n` agree outside the namespace. */
  ghost predicate SameForeign(m: map<string, string>, n: map<string, string>)
  {
    forall k | !IsOwn(k) :: (k in m <==> k in n) && (k in m ==> m[k] == n[k])
  }

  ghost function OwnKeys(m: map<string, string>): set<string>
  {
    set k | k in m && IsOwn(k)
  }

  /** The number of entries `cleanup` evicts out of `n`:
      `Math.ceil(n * 0.2)`. */
  function EvictCount(n: nat): (r: nat)
    ensures r <= n && (n > 0 ==> r >= 1) && 5 * r >= n && 5 * r < n + 5
  {
    (n + 4) / 5
  }

  /** The most a `set` starting at `retryCount` tries to write. */
  function MaxAttempts(retryCount: nat): nat
  {
    if retryCount < 3 then 4 - retryCount else 1
  }

  class SafeStorage {
    const ls: LocalStorage
    var quotaExceeded: bool

    constructor(ls: LocalStorage)
      ensures this.ls == ls && !quotaExceeded
    {
      this.ls := ls;
      quotaExceeded := false;
    }

    /** `get(key, defaultValue)`: the decoded entry, or the default when it
        is missing or storage cannot be read. */
    function Get(key: string, default: Value): (r: Value)
      reads this, ls
      ensures r == Read(ls.items, ls.denied, key, default)
    {
      match ls.GetItem(Prefix + key)
      case Err(_) => default
      case Ok(None) => default
      case Ok(Some(item)) => Decode(item)
    }

    /** `set(key, value, retryCount)`: writes the serialized value; on a
        quota failure evicts with `cleanup` and tries again, at most three
        more times.  `attempts` counts the `setItem` calls. */
    method Set(key: string, value: Value, retryCount: nat) returns (ok: bool, ghost attempts: nat)
      modifies this, ls
      ensures SameForeign(ls.items, old(ls.items))
      ensures 1 <= attempts <= MaxAttempts(retryCount)
      ensures ls.denied ==> !ok && attempts == 1 && ls.items == old(ls.items) && quotaExceeded == old(quotaExceeded)
      ensures !ls.denied && StoreSize(old(ls.items)[Prefix + key := Serialize(value)]) <= ls.quota ==>
        ok && attempts == 1 && ls.items == old(ls.items)[Prefix + key := Serialize(value)]
      ensures ok ==> !quotaExceeded && Prefix + key in ls.items && ls.items[Prefix + key] == Serialize(value)
      ensures ok ==> SubMap(ls.items - {Prefix + key}, old(ls.items))
      ensures !ok ==> SubMap(ls.items, old(ls.items))
      ensures !ok && !ls.denied ==> attempts == MaxAttempts(retryCount)
      ensures !ok && !ls.denied && retryCount < 3 ==> quotaExceeded
      ensures !ok && retryCount >= 3 ==> quotaExceeded == old(quotaExceeded)
      ensures attempts > 1 && OwnKeys(old(ls.items)) != {} ==> OwnKeys(ls.items - {Prefix + key}) < OwnKeys(old(ls.items))
      ensures !ok && attempts > 1 && OwnKeys(old(ls.items)) != {} ==> OwnKeys(ls.items) < OwnKeys(old(ls.items))
      decreases if retryCount < 3 then 3 - retryCount else 0
    {
      var fullKey := Prefix + key;
      PrefixedIsOwn(key);
      var serialized := Serialize(value);
      var r := ls.SetItem(fullKey, serialized);
      if r.Ok? {
        quotaExceeded := false;
        return true, 1;
      }
      if r.error == QuotaExceededError && retryCount < 3 {
        quotaExceeded := true;
        ghost var before := ls.items;
        Cleanup();
        ghost var mid := ls.items;
        ghost var a;
        ok, a := Set(key, value, retryCount + 1);
        if OwnKeys(before) != {} {
          CleanupShrinks(before, mid, ls.items, fullKey, ok);
        }
        return ok, a + 1;
      }
      return false, 1;
    }

    /** `remove(key)`. */
    method Remove(key: string) returns (ok: bool)
      modifies ls
      ensures ls.denied ==> !ok && ls.items == old(ls.items)
      ensures !ls.denied ==> ok && ls.items == old(ls.items) - {Prefix + key}
    {
      var r := ls.RemoveItem(Prefix + key);
      return r.Ok?;
    }

    /** `clear()`: drops every entry of the namespace and nothing else. */
    method Clear() returns (ok: bool)
      modifies ls
      ensures ls.denied ==> !ok && ls.items == old(ls.items)
      ensures !ls.denied ==> ok && ls.items == map k | k in old(ls.items) && !IsOwn(k) :: old(ls.items)[k]
    {
      var keys := ls.Keys();
      if keys.None? {
        return false;
      }
      var ks := keys.value;
      for i := 0 to |ks|
        invariant ls.items == map k | k in old(ls.items) && !(IsOwn(k) && k in ks[..i]) :: old(ls.items)[k]
      {
        if IsOwn(ks[i]) {
          var _ := ls.RemoveItem(ks[i]);
        }
        assert ks[..i + 1] == ks[..i] + [ks[i]];
      }
      assert ks[..|ks|] == ks;
      return true;
    }

    /** `getUsage().bytes`: the blob sizes of the namespace's values;
        `None` is the exception a refusing browser throws. */
    method GetUsage() returns (bytes: Option<nat>)
      ensures ls.denied ==> bytes.None?
      ensures !ls.denied ==> bytes == Some(Usage(ls.items))
    {
      var keys := ls.Keys();
      if keys.None? {
        return None;
      }
      var ks := keys.value;
      var totalSize := 0;
      for i := 0 to |ks|
        invariant totalSize == SumOver(ls.items, Elems(ks[..i]), UsageWeight)
      {
        ghost var seen := Elems(ks[..i]);
        assert Elems(ks[..i + 1]) == seen + {ks[i]} by {
          assert ks[..i + 1] == ks[..i] + [ks[i]];
        }
        assert ks[i] !in seen;
        SumSplit(ls.items, seen + {ks[i]}, ks[i], UsageWeight);
        assert seen + {ks[i]} - {ks[i]} == seen;
        if IsOwn(ks[i]) {
          var item := ls.GetItem(ks[i]);
          totalSize := totalSize + Utf8Size(item.value.value);
        }
      }
      assert Elems(ks[..|ks|]) == ls.items.Keys by {
        assert ks[..|ks|] == ks;
      }
      return Some(totalSize);
    }

    /** The `{key, size}` rows `cleanup` lists for the namespace's keys
        among `ks`. */
    method MeasureOwn(ks: seq<string>) returns (items: seq<Sized>)
      requires !ls.denied && Distinct(ks) && forall k :: k in ks <==> k in ls.items
      ensures Measures(items, ls.items) && |KeysOf(items)| == |items|
      ensures KeysOf(items) == OwnKeys(ls.items)
    {
      items := [];
      for i := 0 to |ks|
        invariant Measures(items, ls.items) && |KeysOf(items)| == |items|
        invariant KeysOf(items) == OwnIn(ks[..i])
      {
        OwnInPrefix(ks, i);
        if IsOwn(ks[i]) {
          var item := ls.GetItem(ks[i]);
          var row := Sized(ks[i], Utf8Size(item.value.value));
          assert ks[i] !in KeysOf(items);
          MeasuredRow(items, row, ls.items);
          items := items + [row];
        }
      }
      assert ks[..|ks|] == ks;
      assert OwnIn(ks) == OwnKeys(ls.items);
    }

    /** Removes the keys of the first `t` rows. */
    method EvictRows(rows: seq<Sized>, t: nat)
      requires t <= |rows|
      modifies ls
      ensures !ls.denied ==> ls.items == old(ls.items) - KeysOf(rows[..t])
      ensures ls.denied ==> ls.items == old(ls.items)
    {
      for i := 0 to t
        invariant !ls.denied ==> ls.items == old(ls.items) - KeysOf(rows[..i])
        invariant ls.denied ==> ls.items == old(ls.items)
      {
        var _ := ls.RemoveItem(rows[i].key);
        KeysOfSnoc(rows, i);
        MapMinusAdd(old(ls.items), KeysOf(rows[..i]), rows[i].key);
      }
    }

    /** `cleanup()`: evicts the largest fifth (rounded up) of the
        namespace's entries, by blob size. */
    method Cleanup()
      modifies ls
      ensures SubMap(ls.items, old(ls.items)) && SameForeign(ls.items, old(ls.items))
      ensures ls.denied ==> ls.items == old(ls.items)
      ensures !ls.denied ==> |OwnKeys(old(ls.items)) - ls.items.Keys| == EvictCount(|OwnKeys(old(ls.items))|)
      ensures forall gone, kept | gone in old(ls.items) && gone !in ls.items && kept in ls.items && IsOwn(kept) ::
        Utf8Size(old(ls.items)[gone]) >= Utf8Size(ls.items[kept])
    {
      var keys := ls.Keys();
      if keys.None? {
        return;
      }
      var ks := keys.value;
      var items := MeasureOwn(ks);
      var sorted := SortDesc(items);
      KeysOfPermutation(items, sorted);
      MeasuresPermutation(items, sorted, ls.items);
      var toRemove := EvictCount(|sorted|);
      PrefixKeys(sorted, toRemove);
      ghost var before := ls.items;
      EvictRows(sorted, toRemove);
      EvictedKeys(before, sorted, toRemove);
      EvictedLargest(before, ls.items, sorted, toRemove);
    }
  }

  /** A cleanup of a non-empty namespace, followed by a `set` that adds no
      key but `k` (none at all when it fails), leaves fewer keys of the
      namespace than there were. */
  lemma CleanupShrinks(before: map<string, string>, mid: map<string, string>, after: map<string, string>, k: string, ok: bool)
    requires OwnKeys(before) != {} && |OwnKeys(before) - mid.Keys| == EvictCount(|OwnKeys(before)|)
    requires SubMap(mid, before)
    requires ok ==> SubMap(after - {k}, mid)
    requires !ok ==> SubMap(after, mid)
    ensures OwnKeys(after - {k}) < OwnKeys(before)
    ensures !ok ==> OwnKeys(after) < OwnKeys(before)
  {
    assert |OwnKeys(before) - mid.Keys| >= 1;
    var gone :| gone in OwnKeys(before) - mid.Keys;
    assert gone !in OwnKeys(after - {k});
    if !ok {
      assert gone !in OwnKeys(after);
    }
  }

  lemma ElemsPrefix(ks: seq<string>, i: nat)
    requires i < |ks|
    ensures Elems(ks[..i + 1]) == Elems(ks[..i]) + {ks[i]}
  {
    assert ks[..i + 1] == ks[..i] + [ks[i]];
  }

  /** The namespace's keys among those listed. */
  ghost function OwnIn(ks: seq<string>): set<string>
  {
    set k | k in Elems(ks) && IsOwn(k)
  }

  lemma OwnInPrefix(ks: seq<string>, i: nat)
    requires i < |ks|
    ensures OwnIn(ks[..i + 1]) == OwnIn(ks[..i]) + (if IsOwn(ks[i]) then {ks[i]} else {})
  {
    ElemsPrefix(ks, i);
  }

  lemma KeysOfSnoc(rows: seq<Sized>, i: nat)
    requires i < |rows|
    ensures KeysOf(rows[..i + 1]) == KeysOf(rows[..i]) + {rows[i].key}
  {
    assert rows[..i + 1] == rows[..i] + [rows[i]];
    KeysOfAppend(rows[..i], [rows[i]]);
    assert KeysOf([rows[i]]) == {rows[i].key};
  }

  lemma MeasuredRow(items: seq<Sized>, row: Sized, m: map<string, string>)
    requires Measures(items, m) && |KeysOf(items)| == |items| && row.key !in KeysOf(items)
    requires row.key in m && row.size == Utf8Size(m[row.key])
    ensures Measures(items + [row], m) && |KeysOf(items + [row])| == |items| + 1
    ensures KeysOf(items + [row]) == KeysOf(items) + {row.key}
  {
    MeasuresSnoc(items, row, m);
    KeysOfAppend(items, [row]);
    assert KeysOf([row]) == {row.key};
  }

  lemma MeasuresSnoc(items: seq<Sized>, row: Sized, m: map<string, string>)
    requires Measures(items, m) && row.key in m && row.size == Utf8Size(m[row.key])
    ensures Measures(items + [row], m)
  {
    var r := items + [row];
    forall i | 0 <= i < |r| ensures r[i].key in m && r[i].size == Utf8Size(m[r[i].key]) {
      if i < |items| { assert r[i] == items[i]; }
    }
  }

  lemma MapMinusAdd(m: map<string, string>, a: set<string>, k: string)
    ensures m - (a + {k}) == (m - a) - {k}
  {
  }

  /** Removing the keys of the first `t` rows of a list of the namespace's
      entries evicts exactly those keys from the namespace. */
  lemma EvictedKeys(m: map<string, string>, sorted: seq<Sized>, t: nat)
    requires t <= |sorted| && KeysOf(sorted) == OwnKeys(m)
    ensures OwnKeys(m) - (m - KeysOf(sorted[..t])).Keys == KeysOf(sorted[..t])
  {
    assert sorted == sorted[..t] + sorted[t..];
    KeysOfAppend(sorted[..t], sorted[t..]);
  }

  /** When the list is size-descending, every evicted entry is at least as
      large as every entry of the namespace left behind. */
  lemma EvictedLargest(m: map<string, string>, rest: map<string, string>, sorted: seq<Sized>, t: nat)
    requires t <= |sorted| && Descending(sorted) && Measures(sorted, m)
    requires KeysOf(sorted) == OwnKeys(m) && rest == m - KeysOf(sorted[..t])
    ensures forall gone, kept | gone in m && gone !in rest && kept in rest && IsOwn(kept) ::
      Utf8Size(m[gone]) >= Utf8Size(rest[kept])
  {
    forall gone, kept | gone in m && gone !in rest && kept in rest && IsOwn(kept)
      ensures Utf8Size(m[gone]) >= Utf8Size(rest[kept])
    {
      assert kept in OwnKeys(m);
      EvictedSplit(sorted, t, kept);
      EvictedPair(m, sorted, t, gone, kept);
    }
  }

  /** A key of the namespace that is not among the first `t` rows is
      among the rows after them. */
  lemma EvictedSplit(sorted: seq<Sized>, t: nat, kept: string)
    requires t <= |sorted| && kept in KeysOf(sorted) && kept !in KeysOf(sorted[..t])
    ensures kept in KeysOf(sorted[t..])
  {
    var a, b := sorted[..t], sorted[t..];
    assert KeysOf(sorted) == KeysOf(a) + KeysOf(b) by {
      assert a + b == sorted;
      KeysOfAppend(a, b);
    }
  }

  lemma EvictedPair(m: map<string, string>, sorted: seq<Sized>, t: nat, gone: string, kept: string)
    requires t <= |sorted| && Descending(sorted) && Measures(sorted, m)
    requires gone in KeysOf(sorted[..t]) && kept in KeysOf(sorted[t..])
    ensures gone in m && kept in m && Utf8Size(m[gone]) >= Utf8Size(m[kept])
  {
    KeysOfIn(sorted[..t], gone);
    var i :| 0 <= i < t && sorted[..t][i].key == gone;
    KeysOfIn(sorted[t..], kept);
    var j :| 0 <= j < |sorted| - t && sorted[t..][j].key == kept;
    EntrySizes(m, sorted, i, t + j);
  }

  lemma EntrySizes(m: map<string, string>, sorted: seq<Sized>, i: nat, j: nat)
    requires i < j < |sorted| && Descending(sorted) && Measures(sorted, m)
    ensures Utf8Size(m[sorted[i].key]) >= Utf8Size(m[sorted[j].key])
  {
  }

  // ---------------------------------------------------------------------
  // DataCompressor
  // ---------------------------------------------------------------------

  /** `compress(str)`: an object is stringified first, then the text is
      percent-encoded and base64-encoded; a failure returns the text. */
  function Compress(v: Value): (r: string)
  {
    var text := Serialize(v);
    match Btoa(EncodeURIComponent(text))
    case Some(b) => b
    case None => text
  }

  /** `decompress(str)`: undoes `compress`; input it cannot decode comes
      back unchanged. */
  function Decompress(s: string): (r: string)
    ensures Atob(s).None? ==> r == s
    ensures Atob(s).Some? && DecodeURIComponent(Atob(s).value).None? ==> r == s
  {
    match Atob(s)
    case None => s
    case Some(bin) =>
      match DecodeURIComponent(bin)
      case None => s
      case Some(t) => t
  }

  /** `decompress(compress(v))` is the text `compress` started from: the
      string itself for a string, the JSON text otherwise. */
  lemma CompressRoundTrip(v: Value)
    ensures Decompress(Compress(v)) == Serialize(v)
  {
    var text := Serialize(v);
    var enc := EncodeURIComponent(text);
    Base64RoundTrip(enc);
    PercentRoundTrip(text);
  }

  /** A single character is not base64, and "JQ==" is the base64 of "%",
      which is not valid percent-encoding: both come back as they are. */
  lemma DecompressRejects()
    ensures Decompress("a") == "a"
    ensures Decompress("JQ==") == "JQ=="
  {
    assert RemoveWs("a") == "a";
    var d := "JQ==";
    assert RemoveWs(d) == d by {
      RemoveWsNone(d);
    }
    assert StripPadding(d) == "JQ";
    var xs := Indices("JQ");
    assert xs == [9, 16];
    assert SextetBytes(xs) == [37];
    assert ByteChars([37]) == "%";
    assert Atob(d) == Some("%");
    assert ReadPercent("%") == None;
  }
}
