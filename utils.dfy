/** The undo/redo history, the keyboard-shortcut registry and the window
    arithmetic of the virtual scroller. */
module Utils {
  import opened Base
  import opened Assoc
  import opened Json
  import Capped

  // ---------------------------------------------------------------------
  // UndoManager
  // ---------------------------------------------------------------------

  /** The most entries the undo stack keeps (`maxStack`). */
  const MaxStack: nat := 50

  /** One saved state: what was done, a copy of the state, and when
      (milliseconds, from the caller's clock).  `deepClone` is a value
      copy, so the state is a plain value. */
  datatype Saved = Saved(action: string, state: Value, timestamp: int)

  /** Both stacks, oldest first: the top of each is its last element. */
  datatype History = History(undo: seq<Saved>, redo: seq<Saved>)

  /** The outcome of `undo` or `redo`: the new history and the returned
      state, `None` standing for `null`. */
  datatype Moved = Moved(history: History, state: Option<Value>)

  /** What `getStatus` reports. */
  datatype Status = Status(canUndo: bool, canRedo: bool, undoCount: nat, redoCount: nat)

  function Size(h: History): nat
  {
    |h.undo| + |h.redo|
  }

  function Last(s: seq<Saved>): Saved
    requires s != []
  {
    s[|s| - 1]
  }

  /** `saveState`: the new entry goes on top of the undo stack, the
      oldest entry is dropped once there are more than `MaxStack`, and the
      redo branch is forgotten. */
  function AfterSave(h: History, e: Saved): (r: History)
    ensures r.redo == [] && r.undo != [] && Last(r.undo) == e
    ensures |h.undo| <= MaxStack ==> r.undo == Capped.Newest(h.undo + [e], MaxStack)
    ensures |h.undo| <= MaxStack ==> Size(r) <= MaxStack
  {
    History(Capped.Push(h.undo, e, MaxStack), [])
  }

  /** `undo`: nothing happens on an empty undo stack; otherwise its top
      entry moves to the redo stack and its state is returned. */
  function AfterUndo(h: History): (r: Moved)
    ensures h.undo == [] ==> r == Moved(h, None)
    ensures h.undo != [] ==>
      && r.state == Some(Last(h.undo).state)
      && r.history.undo + [Last(h.undo)] == h.undo
      && r.history.redo == h.redo + [Last(h.undo)]
    ensures Size(r.history) == Size(h)
  {
    if |h.undo| == 0 then Moved(h, None)
    else
      var current := h.undo[|h.undo| - 1];
      Moved(History(h.undo[..|h.undo| - 1], h.redo + [current]), Some(current.state))
  }

  /** `redo`: the mirror image of `undo`. */
  function AfterRedo(h: History): (r: Moved)
    ensures h.redo == [] ==> r == Moved(h, None)
    ensures h.redo != [] ==>
      && r.state == Some(Last(h.redo).state)
      && r.history.redo + [Last(h.redo)] == h.redo
      && r.history.undo == h.undo + [Last(h.redo)]
    ensures Size(r.history) == Size(h)
  {
    if |h.redo| == 0 then Moved(h, None)
    else
      var next := h.redo[|h.redo| - 1];
      Moved(History(h.undo + [next], h.redo[..|h.redo| - 1]), Some(next.state))
  }

  /** `redo` right after a successful `undo` hands back the same state and
      puts both stacks back as they were. */
  lemma UndoThenRedo(h: History)
    requires h.undo != []
    ensures var u := AfterUndo(h); AfterRedo(u.history) == Moved(h, u.state)
  {
    var u := AfterUndo(h);
    assert Last(u.history.redo) == Last(h.undo);
    assert u.history.redo[..|u.history.redo| - 1] == h.redo;
  }

  /** `undo` right after a successful `redo` does the same in reverse. */
  lemma RedoThenUndo(h: History)
    requires h.redo != []
    ensures var r := AfterRedo(h); AfterUndo(r.history) == Moved(h, r.state)
  {
    var r := AfterRedo(h);
    assert Last(r.history.undo) == Last(h.redo);
    assert r.history.undo[..|r.history.undo| - 1] == h.undo;
  }

  /** After any number of saves on an empty history the undo stack holds
      the newest `MaxStack` of them, oldest first. */
  lemma {:induction false} SavesKeepNewest(h: History, es: seq<Saved>)
    requires |h.undo| <= MaxStack
    ensures Capped.PushAll(h.undo, es, MaxStack) == Capped.Newest(h.undo + es, MaxStack)
  {
    Capped.PushAllNewest(h.undo, es, MaxStack);
  }

  class UndoManager {
    var undoStack: seq<Saved>
    var redoStack: seq<Saved>

    /** Together the stacks never hold more than `MaxStack` entries:
        saving trims to `MaxStack` and empties the redo stack, undo and
        redo only move entries across. */
    ghost predicate Valid()
      reads this
    {
      Size(Current()) <= MaxStack
    }

    function Current(): History
      reads this
    {
      History(undoStack, redoStack)
    }

    constructor()
      ensures Valid() && undoStack == [] && redoStack == []
    {
      undoStack := [];
      redoStack := [];
    }

    /** `saveState(action, state)`, at time `now`. */
    method SaveState(action: string, state: Value, now: int)
      requires Valid()
      modifies this
      ensures Valid()
      ensures Current() == AfterSave(old(Current()), Saved(action, state, now))
    {
      undoStack := undoStack + [Saved(action, state, now)];
      redoStack := [];
      if |undoStack| > MaxStack {
        undoStack := undoStack[1..];
      }
    }

    /** `undo()`. */
    method Undo() returns (state: Option<Value>)
      requires Valid()
      modifies this
      ensures Valid()
      ensures Moved(Current(), state) == AfterUndo(old(Current()))
    {
      if |undoStack| == 0 {
        return None;
      }
      var current := undoStack[|undoStack| - 1];
      undoStack := undoStack[..|undoStack| - 1];
      redoStack := redoStack + [current];
      return Some(current.state);
    }

    /** `redo()`. */
    method Redo() returns (state: Option<Value>)
      requires Valid()
      modifies this
      ensures Valid()
      ensures Moved(Current(), state) == AfterRedo(old(Current()))
    {
      if |redoStack| == 0 {
        return None;
      }
      var next := redoStack[|redoStack| - 1];
      redoStack := redoStack[..|redoStack| - 1];
      undoStack := undoStack + [next];
      return Some(next.state);
    }

    /** `clear()`. */
    method Clear()
      modifies this
      ensures Valid() && undoStack == [] && redoStack == []
    {
      undoStack := [];
      redoStack := [];
    }

    /** `getStatus()`. */
    function GetStatus(): (s: Status)
      reads this
      ensures s.canUndo <==> s.undoCount > 0
      ensures s.canRedo <==> s.redoCount > 0
      ensures s.undoCount == |undoStack| && s.redoCount == |redoStack|
    {
      Status(|undoStack| > 0, |redoStack| > 0, |undoStack|, |redoStack|)
    }
  }

  // ---------------------------------------------------------------------
  // KeyboardShortcuts
  // ---------------------------------------------------------------------

  /** `toLowerCase` on one character; only ASCII letters are modelled. */
  function LowerChar(c: char): char
  {
    if 'A' <= c <= 'Z' then (c as int + 32) as char else c
  }

  predicate IsLower(s: string)
  {
    forall i | 0 <= i < |s| :: !('A' <= s[i] <= 'Z')
  }

  /** `s.toLowerCase()`: same length, no upper-case letter left, and a
      lower-case string is its own result. */
  function Lower(s: string): (r: string)
    ensures |r| == |s| && IsLower(r)
    ensures IsLower(s) ==> r == s
    ensures forall i | 0 <= i < |s| :: (r[i] == '+' <==> s[i] == '+')
  {
    seq(|s|, i requires 0 <= i < |s| => LowerChar(s[i]))
  }

  /** What a registration keeps: the handler (an identifier, since
      functions cannot be compared) and its description. */
  datatype Shortcut = Shortcut(callback: nat, description: string)

  /** One row of `getAll()`. */
  datatype Listing = Listing(key: string, description: string)

  /** The parts of a `keydown` event the listener looks at. */
  datatype KeyEvent = KeyEvent(key: string, ctrlKey: bool, metaKey: bool, altKey: bool, shiftKey: bool, targetTag: string)

  /** `parts.join(sep)`. */
  function Join(parts: seq<string>, sep: string): string
  {
    if |parts| == 0 then ""
    else if |parts| == 1 then parts[0]
    else parts[0] + sep + Join(parts[1..], sep)
  }

  /** Every part followed by the separator. */
  function Suffixed(parts: seq<string>, sep: string): string
  {
    if parts == [] then "" else parts[0] + sep + Suffixed(parts[1..], sep)
  }

  lemma {:induction false} SuffixedAppend(a: seq<string>, b: seq<string>, sep: string)
    ensures Suffixed(a + b, sep) == Suffixed(a, sep) + Suffixed(b, sep)
  {
    if a != [] {
      assert (a + b)[1..] == a[1..] + b;
      SuffixedAppend(a[1..], b, sep);
    } else {
      assert a + b == b;
    }
  }

  /** Joining parts with a last one is writing each earlier part followed
      by the separator, then the last part. */
  lemma {:induction false} JoinSnoc(parts: seq<string>, last: string, sep: string)
    ensures Join(parts + [last], sep) == Suffixed(parts, sep) + last
  {
    if parts != [] {
      var rest := parts[1..] + [last];
      assert (parts + [last])[1..] == rest;
      JoinSnoc(parts[1..], last, sep);
    }
  }

  /** The modifiers `_getKeyCombo` collects, in the order it collects them. */
  function Modifiers(ctrl: bool, alt: bool, shift: bool): seq<string>
  {
    (if ctrl then ["ctrl"] else []) + (if alt then ["alt"] else []) + (if shift then ["shift"] else [])
  }

  /** The modifier prefix of a combo, each modifier followed by `+`. */
  function ModifierPrefix(ctrl: bool, alt: bool, shift: bool): (r: string)
    ensures r == [] || r[|r| - 1] == '+'
    ensures |r| == (if ctrl then 5 else 0) + (if alt then 4 else 0) + (if shift then 6 else 0)
    ensures IsLower(r)
  {
    (if ctrl then "ctrl+" else "") + (if alt then "alt+" else "") + (if shift then "shift+" else "")
  }

  /** One optional modifier, followed by `+` when present. */
  lemma OptionalSuffixed(present: bool, name: string)
    ensures Suffixed(if present then [name] else [], "+") == if present then name + "+" else ""
  {
    if present {
      assert [name][1..] == [];
    }
  }

  lemma ModifiersSuffixed(ctrl: bool, alt: bool, shift: bool)
    ensures Suffixed(Modifiers(ctrl, alt, shift), "+") == ModifierPrefix(ctrl, alt, shift)
  {
    var c: seq<string> := if ctrl then ["ctrl"] else [];
    var a: seq<string> := if alt then ["alt"] else [];
    var s: seq<string> := if shift then ["shift"] else [];
    calc {
      Suffixed(Modifiers(ctrl, alt, shift), "+");
      Suffixed(c + a + s, "+");
      { SuffixedAppend(c + a, s, "+"); SuffixedAppend(c, a, "+"); }
      Suffixed(c, "+") + Suffixed(a, "+") + Suffixed(s, "+");
      { OptionalSuffixed(ctrl, "ctrl"); OptionalSuffixed(alt, "alt"); OptionalSuffixed(shift, "shift"); }
      (if ctrl then "ctrl" + "+" else "") + (if alt then "alt" + "+" else "") + (if shift then "shift" + "+" else "");
      { assert "ctrl" + "+" == "ctrl+" && "alt" + "+" == "alt+" && "shift" + "+" == "shift+"; }
      ModifierPrefix(ctrl, alt, shift);
    }
  }

  /** `_getKeyCombo(e)`: `ctrl` (for Ctrl or Meta), `alt`, `shift`, in
      that order, then the lower-cased key, joined by `+`. */
  function KeyCombo(e: KeyEvent): (r: string)
    ensures r == ModifierPrefix(e.ctrlKey || e.metaKey, e.altKey, e.shiftKey) + Lower(e.key)
    ensures IsLower(r)
  {
    var mods := Modifiers(e.ctrlKey || e.metaKey, e.altKey, e.shiftKey);
    JoinSnoc(mods, Lower(e.key), "+");
    ModifiersSuffixed(e.ctrlKey || e.metaKey, e.altKey, e.shiftKey);
    LowerConcat(ModifierPrefix(e.ctrlKey || e.metaKey, e.altKey, e.shiftKey), Lower(e.key));
    Join(mods + [Lower(e.key)], "+")
  }

  lemma LowerConcat(a: string, b: string)
    requires IsLower(a) && IsLower(b)
    ensures IsLower(a + b)
  {
  }

  lemma NoPlusAfter(m: string, k: string, j: nat)
    requires '+' !in k && |m| <= j < |m| + |k|
    ensures (m + k)[j] != '+'
  {
    assert (m + k)[j] == k[j - |m|];
  }

  /** Two prefixes ending in `+`, each followed by a text without `+`:
      equal concatenations have equal parts. */
  lemma SplitAtLastPlus(m1: string, k1: string, m2: string, k2: string)
    requires m1 == [] || m1[|m1| - 1] == '+'
    requires m2 == [] || m2[|m2| - 1] == '+'
    requires '+' !in k1 && '+' !in k2
    requires m1 + k1 == m2 + k2
    ensures m1 == m2 && k1 == k2
  {
    if |m1| < |m2| {
      assert false;
    } else if |m2| < |m1| {
      NoPlusAfter(m2, k2, |m1| - 1);
      assert false;
    } else {
      assert m1 == (m1 + k1)[..|m1|];
      assert m2 == (m2 + k2)[..|m2|];
      assert k1 == (m1 + k1)[|m1|..];
      assert k2 == (m2 + k2)[|m2|..];
    }
  }

  /** For keys other than `+` itself, the combo string determines the
      modifiers (Ctrl and Meta counting as one) and the lower-cased key,
      and conversely. */
  lemma {:induction false} ComboInjective(e1: KeyEvent, e2: KeyEvent)
    requires '+' !in e1.key && '+' !in e2.key
    ensures KeyCombo(e1) == KeyCombo(e2) <==>
      && (e1.ctrlKey || e1.metaKey) == (e2.ctrlKey || e2.metaKey)
      && e1.altKey == e2.altKey && e1.shiftKey == e2.shiftKey
      && Lower(e1.key) == Lower(e2.key)
  {
    if KeyCombo(e1) == KeyCombo(e2) {
      var m1 := ModifierPrefix(e1.ctrlKey || e1.metaKey, e1.altKey, e1.shiftKey);
      var m2 := ModifierPrefix(e2.ctrlKey || e2.metaKey, e2.altKey, e2.shiftKey);
      SplitAtLastPlus(m1, Lower(e1.key), m2, Lower(e2.key));
      SameLengthSameFlags(e1.ctrlKey || e1.metaKey, e1.altKey, e1.shiftKey, e2.ctrlKey || e2.metaKey, e2.altKey, e2.shiftKey);
    }
  }

  /** The eight modifier prefixes have eight different lengths. */
  lemma SameLengthSameFlags(c1: bool, a1: bool, s1: bool, c2: bool, a2: bool, s2: bool)
    requires |ModifierPrefix(c1, a1, s1)| == |ModifierPrefix(c2, a2, s2)|
    ensures c1 == c2 && a1 == a2 && s1 == s2
  {
  }

  /** The `keydown` rule: a registered combo fires its handler (and the
      browser default is prevented) only while shortcuts are enabled and
      the focus is not in an INPUT or TEXTAREA; the result is the handler
      fired. */
  function Dispatch(enabled: bool, shortcuts: seq<Entry<Shortcut>>, e: KeyEvent): (r: Option<nat>)
    ensures r.Some? <==>
      enabled && e.targetTag != "INPUT" && e.targetTag != "TEXTAREA" && KeyCombo(e) in KeySet(shortcuts)
    ensures r.Some? ==> Lookup(shortcuts, KeyCombo(e)).value.callback == r.value
  {
    if !enabled || e.targetTag == "INPUT" || e.targetTag == "TEXTAREA" then None
    else
      match Lookup(shortcuts, KeyCombo(e))
      case Some(sc) => Some(sc.callback)
      case None => None
  }

  /** A shortcut registered under any spelling of a combo fires on that
      combo: registration lower-cases its key, and every combo is lower
      case. */
  lemma RegisteredComboFires(fs: seq<Entry<Shortcut>>, key: string, sc: Shortcut, e: KeyEvent)
    requires Lower(key) == Lower(KeyCombo(e))
    requires e.targetTag != "INPUT" && e.targetTag != "TEXTAREA"
    ensures Dispatch(true, Put(fs, Lower(key), sc), e) == Some(sc.callback)
  {
    assert Lower(KeyCombo(e)) == KeyCombo(e);
  }

  /** After `unregister`, no spelling of the combo fires anything. */
  lemma UnregisteredComboSilent(fs: seq<Entry<Shortcut>>, key: string, enabled: bool, e: KeyEvent)
    requires Lower(key) == Lower(KeyCombo(e))
    ensures Dispatch(enabled, RemoveKeys(fs, {Lower(key)}), e) == None
  {
    assert Lower(KeyCombo(e)) == KeyCombo(e);
  }

  /** `getAll()`: one row per registration, in registration order, with
      its key and description. */
  function Listings(fs: seq<Entry<Shortcut>>): (r: seq<Listing>)
    ensures |r| == |fs| && forall i | 0 <= i < |r| :: r[i].key == fs[i].key
    ensures forall k :: k in KeySet(fs) <==> exists i | 0 <= i < |r| :: r[i].key == k
    ensures DistinctKeys(fs) ==> forall i | 0 <= i < |r| :: Lookup(fs, r[i].key).value.description == r[i].description
  {
    KeysListed(fs);
    seq(|fs|, i requires 0 <= i < |fs| => Listing(fs[i].key, fs[i].value.description))
  }

  lemma KeysListed(fs: seq<Entry<Shortcut>>)
    ensures forall k :: k in KeySet(fs) <==> exists i | 0 <= i < |fs| :: fs[i].key == k
    ensures DistinctKeys(fs) ==> forall i | 0 <= i < |fs| :: Lookup(fs, fs[i].key) == Some(fs[i].value)
  {
    forall k ensures k in KeySet(fs) <==> exists i | 0 <= i < |fs| :: fs[i].key == k {
      KeySetIndex(fs, k);
    }
    if DistinctKeys(fs) {
      forall i | 0 <= i < |fs| ensures Lookup(fs, fs[i].key) == Some(fs[i].value) {
        LookupIndex(fs, i);
      }
    }
  }

  class KeyboardShortcuts {
    var shortcuts: seq<Entry<Shortcut>>
    var enabled: bool
    var initialized: bool
    /** The `keydown` listeners added to the document. */
    var listeners: nat

    /** A JavaScript `Map`: distinct keys, all of them lower case. */
    ghost predicate Valid()
      reads this
    {
      DistinctKeys(shortcuts) && forall k | k in KeySet(shortcuts) :: IsLower(k)
    }

    constructor()
      ensures Valid() && shortcuts == [] && enabled && !initialized && listeners == 0
    {
      shortcuts := [];
      enabled := true;
      initialized := false;
      listeners := 0;
    }

    /** `register(key, callback, description)`. */
    method Register(key: string, callback: nat, description: string)
      requires Valid()
      modifies this
      ensures Valid()
      ensures shortcuts == Put(old(shortcuts), Lower(key), Shortcut(callback, description))
      ensures enabled == old(enabled) && initialized == old(initialized) && listeners == old(listeners)
    {
      shortcuts := Put(shortcuts, Lower(key), Shortcut(callback, description));
    }

    /** `unregister(key)`. */
    method Unregister(key: string)
      requires Valid()
      modifies this
      ensures Valid()
      ensures shortcuts == RemoveKeys(old(shortcuts), {Lower(key)})
      ensures enabled == old(enabled) && initialized == old(initialized) && listeners == old(listeners)
    {
      shortcuts := RemoveKeys(shortcuts, {Lower(key)});
    }

    /** `init()`: adds the `keydown` listener once. */
    method Init()
      modifies this
      ensures initialized
      ensures listeners == old(listeners) + (if old(initialized) then 0 else 1)
      ensures shortcuts == old(shortcuts) && enabled == old(enabled)
    {
      if initialized {
        return;
      }
      listeners := listeners + 1;
      initialized := true;
    }

    /** `getAll()`. */
    function GetAll(): (r: seq<Listing>)
      requires Valid()
      reads this
      ensures forall k :: k in KeySet(shortcuts) <==> exists i | 0 <= i < |r| :: r[i].key == k
      ensures forall i | 0 <= i < |r| :: Lookup(shortcuts, r[i].key).value.description == r[i].description
    {
      Listings(shortcuts)
    }

    /** `setEnabled(enabled)`. */
    method SetEnabled(enabled: bool)
      modifies this
      ensures this.enabled == enabled
      ensures shortcuts == old(shortcuts) && initialized == old(initialized) && listeners == old(listeners)
    {
      this.enabled := enabled;
    }
  }

  // ---------------------------------------------------------------------
  // virtualScroll
  // ---------------------------------------------------------------------

  /** The rows `[start, end)` the scroller renders. */
  datatype Window = Window(start: nat, end: nat)

  /** `Math.ceil(containerHeight / itemHeight)`. */
  function VisibleItems(containerHeight: nat, itemHeight: nat): (r: nat)
    requires itemHeight > 0
    ensures r * itemHeight >= containerHeight
    ensures (r - 1) * itemHeight < containerHeight
  {
    (containerHeight + itemHeight - 1) / itemHeight
  }

  /** `startIndex` and `endIndex` of `render()`: `buffer` rows before the
      first row under `scrollTop`, and `visible + 2 * buffer` rows from
      there, clipped to the list. */
  function ScrollWindow(count: nat, scrollTop: nat, visible: nat, itemHeight: nat, buffer: nat): (w: Window)
    requires itemHeight > 0
    ensures w.end <= count
    ensures w.start <= scrollTop / itemHeight && w.start + buffer >= scrollTop / itemHeight
    ensures w.start == 0 || w.start + buffer == scrollTop / itemHeight
    ensures w.end <= w.start + visible + 2 * buffer
    ensures w.end == count || w.end == w.start + visible + 2 * buffer
  {
    var first := scrollTop / itemHeight;
    var start := if first - buffer < 0 then 0 else first - buffer;
    var end := if count < start + visible + 2 * buffer then count else start + visible + 2 * buffer;
    Window(start, end)
  }

  lemma FloorBelow(scrollTop: nat, itemHeight: nat, i: nat)
    requires itemHeight > 0 && (i + 1) * itemHeight > scrollTop
    ensures scrollTop / itemHeight <= i
  {
    var q := scrollTop / itemHeight;
    assert q * itemHeight <= scrollTop;
  }

  lemma RowAbove(scrollTop: nat, containerHeight: nat, itemHeight: nat, i: nat)
    requires itemHeight > 0 && i * itemHeight < scrollTop + containerHeight
    ensures i < scrollTop / itemHeight + 1 + VisibleItems(containerHeight, itemHeight)
  {
    var q := scrollTop / itemHeight;
    var v := VisibleItems(containerHeight, itemHeight);
    assert scrollTop < (q + 1) * itemHeight;
    assert (q + 1 + v) * itemHeight == (q + 1) * itemHeight + v * itemHeight;
    ProductsOrdered(i, q + 1 + v, itemHeight);
  }

  /** Rows at a smaller pixel offset have a smaller index. */
  lemma ProductsOrdered(a: nat, b: nat, h: nat)
    requires a * h < b * h
    ensures a < b
  {
  }

  /** With at least one buffer row, every row that shows in the viewport
      `[scrollTop, scrollTop + containerHeight)` is rendered. */
  lemma WindowCoversViewport(count: nat, scrollTop: nat, containerHeight: nat, itemHeight: nat, buffer: nat, i: nat)
    requires itemHeight > 0 && buffer >= 1 && i < count
    requires (i + 1) * itemHeight > scrollTop && i * itemHeight < scrollTop + containerHeight
    ensures var w := ScrollWindow(count, scrollTop, VisibleItems(containerHeight, itemHeight), itemHeight, buffer);
      w.start <= i < w.end
  {
    FloorBelow(scrollTop, itemHeight, i);
    RowAbove(scrollTop, containerHeight, itemHeight, i);
  }

  /** Without buffer rows the last, partly scrolled-in row can be left
      out: 100 px of 50 px rows scrolled by 25 px show rows 0 to 2, and
      only rows 0 and 1 are rendered. */
  lemma ZeroBufferGap()
    ensures var w := ScrollWindow(3, 25, VisibleItems(100, 50), 50, 0);
      w == Window(0, 2) && 2 * 50 < 25 + 100
  {
  }

  /** The height in pixels of `count` rows. */
  function Spacer(count: nat, h: nat): (r: nat)
    ensures r == count * h
  {
    count * h
  }

  lemma SpacersAddUp(n: nat, start: nat, end: nat, rows: nat, h: nat)
    requires start <= end <= n && rows == end - start
    ensures start * h + rows * h + (n - end) * h == n * h
  {
    assert start * h + (end - start) * h == end * h;
    assert end * h + (n - end) * h == n * h;
  }

  /** The rows `render()` draws for `[start, end)`: `renderRow(item, i)`
      for each index, skipping rows it renders as nothing. */
  function RenderRange<T, E>(items: seq<T>, renderRow: (T, nat) -> Option<E>, start: nat, end: nat): (r: seq<E>)
    requires end <= |items|
    ensures |r| <= if start <= end then end - start else 0
    ensures forall x | x in r :: exists i | start <= i < end :: renderRow(items[i], i) == Some(x)
    decreases end
  {
    if end <= start then []
    else
      var prefix := RenderRange(items, renderRow, start, end - 1);
      match renderRow(items[end - 1], end - 1)
      case Some(row) => prefix + [row]
      case None => prefix
  }

  /** Every row of the window that renders to an element is drawn. */
  lemma {:induction false} RenderRangeComplete<T, E>(items: seq<T>, renderRow: (T, nat) -> Option<E>, start: nat, end: nat)
    requires end <= |items|
    ensures forall i | start <= i < end && renderRow(items[i], i).Some? ::
      renderRow(items[i], i).value in RenderRange(items, renderRow, start, end)
    decreases end
  {
    if start < end {
      RenderRangeComplete(items, renderRow, start, end - 1);
    }
  }

  /** Rows come out in index order: the rows of `[start, end)` are those of
      `[start, mid)` followed by those of `[mid, end)`. */
  lemma {:induction false} RenderRangeSplit<T, E>(items: seq<T>, renderRow: (T, nat) -> Option<E>, start: nat, mid: nat, end: nat)
    requires start <= mid <= end <= |items|
    ensures RenderRange(items, renderRow, start, end) ==
      RenderRange(items, renderRow, start, mid) + RenderRange(items, renderRow, mid, end)
    decreases end
  {
    if mid < end {
      RenderRangeSplit(items, renderRow, start, mid, end - 1);
      RenderRangeSplitStep(items, renderRow, start, mid, end);
    } else {
      assert RenderRange(items, renderRow, mid, end) == [];
      assert RenderRange(items, renderRow, start, mid) + [] == RenderRange(items, renderRow, start, mid);
    }
  }

  /** The inductive step of `RenderRangeSplit`: the last row joins both sides alike. */
  lemma RenderRangeSplitStep<T, E>(items: seq<T>, renderRow: (T, nat) -> Option<E>, start: nat, mid: nat, end: nat)
    requires start <= mid < end <= |items|
    requires RenderRange(items, renderRow, start, end - 1) ==
      RenderRange(items, renderRow, start, mid) + RenderRange(items, renderRow, mid, end - 1)
    ensures RenderRange(items, renderRow, start, end) ==
      RenderRange(items, renderRow, start, mid) + RenderRange(items, renderRow, mid, end)
  {
    var a, b := RenderRange(items, renderRow, start, mid), RenderRange(items, renderRow, mid, end - 1);
    var last := RenderedAt(items, renderRow, end - 1);
    RenderRangeLast(items, renderRow, start, end);
    RenderRangeLast(items, renderRow, mid, end);
    AppendAssoc(a, b, last);
  }

  /** What row `i` contributes: its element, or nothing. */
  function RenderedAt<T, E>(items: seq<T>, renderRow: (T, nat) -> Option<E>, i: nat): (r: seq<E>)
    requires i < |items|
    ensures r == [] <==> renderRow(items[i], i).None?
  {
    match renderRow(items[i], i)
    case Some(row) => [row]
    case None => []
  }

  lemma RenderRangeLast<T, E>(items: seq<T>, renderRow: (T, nat) -> Option<E>, start: nat, end: nat)
    requires start < end <= |items|
    ensures RenderRange(items, renderRow, start, end) ==
      RenderRange(items, renderRow, start, end - 1) + RenderedAt(items, renderRow, end - 1)
  {
  }

  /** When every row of the window renders, one row comes out per index. */
  lemma {:induction false} AllRowsRender<T, E>(items: seq<T>, renderRow: (T, nat) -> Option<E>, start: nat, end: nat)
    requires start <= end <= |items|
    requires forall i | start <= i < end :: renderRow(items[i], i).Some?
    ensures |RenderRange(items, renderRow, start, end)| == end - start
    decreases end
  {
    if start < end {
      AllRowsRender(items, renderRow, start, end - 1);
      assert renderRow(items[end - 1], end - 1).Some?;
    }
  }

  /** What `render()` leaves in the container: a top spacer, the rendered
      rows and a bottom spacer, heights in pixels. */
  datatype Layout<E> = Layout(topSpacer: nat, rows: seq<E>, bottomSpacer: nat)

  /** The loop of `render()`: each row of the window rendered in turn. */
  method RenderRows<T, E>(items: seq<T>, renderRow: (T, nat) -> Option<E>, w: Window) returns (rows: seq<E>)
    requires w.end <= |items|
    ensures rows == RenderRange(items, renderRow, w.start, w.end)
  {
    rows := [];
    var i := w.start;
    while i < w.end
      invariant w.start <= w.end ==> w.start <= i <= w.end
      invariant w.end < w.start ==> i == w.start
      invariant rows == RenderRange(items, renderRow, w.start, if w.start <= w.end then i else w.end)
    {
      var row := renderRow(items[i], i);
      if row.Some? {
        rows := rows + [row.value];
      }
      i := i + 1;
    }
  }

  /** `render()`: the spacers stand in for the rows outside the window. */
  method Render<T, E>(items: seq<T>, renderRow: (T, nat) -> Option<E>, w: Window, itemHeight: nat) returns (layout: Layout<E>)
    requires w.end <= |items|
    ensures layout.topSpacer == w.start * itemHeight
    ensures layout.bottomSpacer == (|items| - w.end) * itemHeight
    ensures layout.rows == RenderRange(items, renderRow, w.start, w.end)
    ensures w.start <= w.end && |layout.rows| == w.end - w.start ==>
      layout.topSpacer + |layout.rows| * itemHeight + layout.bottomSpacer == |items| * itemHeight
    ensures w.start <= w.end && (forall i | w.start <= i < w.end :: renderRow(items[i], i).Some?) ==>
      |layout.rows| == w.end - w.start &&
      layout.topSpacer + |layout.rows| * itemHeight + layout.bottomSpacer == |items| * itemHeight
  {
    var rows := RenderRows(items, renderRow, w);
    var top, bottom := Spacer(w.start, itemHeight), Spacer(|items| - w.end, itemHeight);
    layout := Layout(top, rows, bottom);
    if w.start <= w.end && forall i | w.start <= i < w.end :: renderRow(items[i], i).Some? {
      AllRowsRender(items, renderRow, w.start, w.end);
    }
    if w.start <= w.end && |rows| == w.end - w.start {
      SpacersAddUp(|items|, w.start, w.end, |rows|, itemHeight);
    }
  }
}
