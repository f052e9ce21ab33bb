/**
 * The Claude settings file's hook registration: the hooks kex-mem installs,
 * how a hook is recognised as one of them, and how they are merged into an
 * existing settings object. A TypeError the program would throw while merging
 * settings of an unexpected shape is the failure of the result.
 */
module Settings {
  import opened Wrappers
  import opened Text
  import opened JsonValues

  const SessionStartCommand := "bash hooks/session-start.sh"

  const PreCompactCommand := "bash hooks/pre-compact.sh"

  /** `KEX_MEM_HOOK_COMMANDS`. */
  const KexMemCommands := [SessionStartCommand, PreCompactCommand]

  const TypeError := "TypeError"

  /** An entry of an event: an empty matcher and one command hook. */
  function HookEntry(command: string): Json {
    JObj(map["matcher" := JStr(""), "hooks" := JArr([JObj(map["type" := JStr("command"), "command" := JStr(command)])])])
  }

  /** The `hooks` object of `generateHooksSettings()`: each event's entry array. */
  function GeneratedHooks(): map<string, seq<Json>> {
    map["SessionStart" := [HookEntry(SessionStartCommand)], "PreCompact" := [HookEntry(PreCompactCommand)]]
  }

  /** `{ ...newHooks }` as a JSON object. */
  function HooksJson(newHooks: map<string, seq<Json>>): (r: map<string, Json>)
    ensures r.Keys == newHooks.Keys && forall e :: e in newHooks ==> r[e] == JArr(newHooks[e])
  {
    map e | e in newHooks :: JArr(newHooks[e])
  }

  /** `generateHooksSettings()`. */
  function GenerateHooksSettings(): map<string, Json> {
    map["hooks" := JObj(HooksJson(GeneratedHooks()))]
  }

  /** `isKexMemHook`: a command hook running one of kex-mem's two scripts. */
  predicate IsKexMemHook(hook: Json) {
    hook.JObj? && "type" in hook.fields && hook.fields["type"] == JStr("command") &&
    "command" in hook.fields && hook.fields["command"].JStr? && hook.fields["command"].s in KexMemCommands
  }

  /** `entryHooks.some(isKexMemHook)`. */
  predicate HasKexMemHook(hooks: seq<Json>) {
    exists h :: h in hooks && IsKexMemHook(h)
  }

  /**
   * The filter callback of `mergeSettings` on one entry: keep it unless its
   * `hooks` list has a kex-mem hook. Reading `hooks` of `null` throws, as does
   * calling `some` on a value that is not an array; a missing or falsy
   * `hooks` keeps the entry.
   */
  function KeepEntry(entry: Json): Result<bool, string> {
    match entry
    case JNull => Failure(TypeError)
    case JObj(f) =>
      if "hooks" !in f || !Truthy(f["hooks"]) then Success(true)
      else if f["hooks"].JArr? then Success(!HasKexMemHook(f["hooks"].items))
      else Failure(TypeError)
    case _ => Success(true)
  }

  /** `existingEntries.filter(...)`, the callback run on the entries in order. */
  function Filtered(es: seq<Json>): Result<seq<Json>, string> {
    if |es| == 0 then Success([])
    else
      var x := es[|es| - 1];
      match Filtered(es[..|es| - 1])
      case Failure(e) => Failure(e)
      case Success(r) =>
        match KeepEntry(x)
        case Failure(e) => Failure(e)
        case Success(keep) => Success(r + (if keep then [x] else []))
  }

  /**
   * The filter succeeds exactly when the callback does on every entry, and
   * then keeps exactly the entries the callback keeps.
   */
  lemma {:induction false} FilteredSpec(es: seq<Json>)
    ensures Filtered(es).Success? <==> forall i :: 0 <= i < |es| ==> KeepEntry(es[i]).Success?
    ensures Filtered(es).Success? ==>
      forall x :: x in Filtered(es).value <==> x in es && KeepEntry(x) == Success(true)
  {
    if |es| > 0 {
      var n := |es| - 1;
      var front := es[..n];
      FilteredSpec(front);
      assert es == front + [es[n]];
      assert forall i :: 0 <= i < n ==> front[i] == es[i];
    }
  }

  /** Entries without a `hooks` list are kept. */
  lemma NoHookListKept(entry: Json)
    requires entry.JObj? && "hooks" !in entry.fields
    ensures KeepEntry(entry) == Success(true)
  {
  }

  /** Entries the callback keeps all filter to themselves. */
  lemma {:induction false} FilteredAllKept(a: seq<Json>)
    requires forall x :: x in a ==> KeepEntry(x) == Success(true)
    ensures Filtered(a) == Success(a)
  {
    if |a| > 0 {
      var n := |a| - 1;
      var front, last := a[..n], a[n];
      assert a == front + [last];
      assert last in a;
      assert forall x :: x in front ==> x in a;
      FilteredAllKept(front);
      FilteredKeep(front, last);
    }
  }

  lemma FilteredKeep(front: seq<Json>, last: Json)
    requires Filtered(front) == Success(front) && KeepEntry(last) == Success(true)
    ensures Filtered(front + [last]) == Success(front + [last])
  {
    var a := front + [last];
    assert a[..|a| - 1] == front;
  }

  /** Entries the callback drops, appended, change nothing. */
  lemma {:induction false} FilteredDropped(a: seq<Json>, b: seq<Json>)
    requires Filtered(a).Success?
    requires forall x :: x in b ==> KeepEntry(x) == Success(false)
    ensures Filtered(a + b) == Filtered(a)
  {
    if |b| == 0 {
      assert a + b == a;
    } else {
      var n := |b| - 1;
      assert (a + b)[..|a + b| - 1] == a + b[..n];
      assert (a + b)[|a + b| - 1] == b[n];
      assert b[n] in b;
      assert forall x :: x in b[..n] ==> x in b;
      FilteredDropped(a, b[..n]);
      var r := Filtered(a).value;
      assert Filtered(a + b[..n]) == Success(r);
      assert KeepEntry(b[n]) == Success(false);
      assert r + [] == r;
    }
  }

  /** Entries the callback keeps, followed by entries it drops, filter to the former. */
  lemma FilteredKeptThenDropped(a: seq<Json>, b: seq<Json>)
    requires forall x :: x in a ==> KeepEntry(x) == Success(true)
    requires forall x :: x in b ==> KeepEntry(x) == Success(false)
    ensures Filtered(a + b) == Success(a)
  {
    FilteredAllKept(a);
    FilteredDropped(a, b);
  }

  /** `!result.hooks`: the settings have a truthy `hooks` value. */
  predicate HasHooks(s: map<string, Json>) {
    "hooks" in s && Truthy(s["hooks"])
  }

  lemma NatToStringInjective(i: nat, j: nat)
    requires NatToString(i) == NatToString(j)
    ensures i == j
  {
    DigitsValueOfNatToString(i);
    DigitsValueOfNatToString(j);
  }

  /** `{ ...v }`: the own enumerable properties of a value, an array or string by index. */
  function SpreadOf(v: Json): map<string, Json> {
    forall i: nat, j: nat | NatToString(i) == NatToString(j) ensures i == j {
      NatToStringInjective(i, j);
    }
    match v
    case JObj(f) => f
    case JArr(items) => map i: nat | i < |items| :: NatToString(i) := items[i]
    case JStr(s) => map i: nat | i < |s| :: NatToString(i) := JStr([s[i]])
    case _ => map[]
  }

  /**
   * One turn of the loop over the new events, on the hooks object so far:
   * the new entries alone when the event has no truthy entries yet, the
   * existing ones filtered and then the new ones when it has an array, and a
   * TypeError when it has something else.
   */
  function MergedEvent(hooks: map<string, Json>, event: string, entries: seq<Json>): Result<Json, string> {
    if event !in hooks || !Truthy(hooks[event]) then Success(JArr(entries))
    else if !hooks[event].JArr? then Failure(TypeError)
    else
      match Filtered(hooks[event].items)
      case Failure(e) => Failure(e)
      case Success(kept) => Success(JArr(kept + entries))
  }

  /** The events whose merge throws. */
  predicate SomeEventFails(base: map<string, Json>, newHooks: map<string, seq<Json>>) {
    exists e :: e in newHooks && MergedEvent(base, e, newHooks[e]).Failure?
  }

  /** The hooks object after every new event is merged into the copy `base`. */
  function MergedHooks(base: map<string, Json>, newHooks: map<string, seq<Json>>): map<string, Json>
    requires !SomeEventFails(base, newHooks)
  {
    base + map e | e in newHooks :: MergedEvent(base, e, newHooks[e]).value
  }

  /** `mergeSettings(existing, { hooks: newHooks })`. */
  function MergeSettings(existing: map<string, Json>, newHooks: map<string, seq<Json>>): Result<map<string, Json>, string> {
    if !HasHooks(existing) then Success(existing["hooks" := JObj(HooksJson(newHooks))])
    else
      var base := SpreadOf(existing["hooks"]);
      if SomeEventFails(base, newHooks) then Failure(TypeError)
      else Success(existing["hooks" := JObj(MergedHooks(base, newHooks))])
  }

  /** Settings without hooks get the new hooks, and keep every other key as it was. */
  lemma MergeIntoNoHooks(existing: map<string, Json>, newHooks: map<string, seq<Json>>)
    requires !HasHooks(existing)
    ensures MergeSettings(existing, newHooks).Success?
    ensures var r := MergeSettings(existing, newHooks).value;
      "hooks" in r && r["hooks"].JObj? && r["hooks"].fields.Keys == newHooks.Keys &&
      (forall e :: e in newHooks ==> r["hooks"].fields[e] == JArr(newHooks[e])) &&
      forall k :: k != "hooks" ==> (k in r <==> k in existing) && (k in existing ==> r[k] == existing[k])
  {
  }

  /**
   * With hooks present, a merge that does not throw keeps every other key,
   * carries over the events the new hooks do not name, and gives each new
   * event the existing entries that have no kex-mem hook, in their order,
   * followed by the new entries.
   */
  lemma MergeIntoHooks(existing: map<string, Json>, newHooks: map<string, seq<Json>>, event: string)
    requires HasHooks(existing) && MergeSettings(existing, newHooks).Success?
    ensures var r := MergeSettings(existing, newHooks).value;
      forall k :: k != "hooks" ==> (k in r <==> k in existing) && (k in existing ==> r[k] == existing[k])
    ensures var r := MergeSettings(existing, newHooks).value;
      var base := SpreadOf(existing["hooks"]);
      "hooks" in r && r["hooks"].JObj? && r["hooks"].fields.Keys == base.Keys + newHooks.Keys &&
      (event in base && event !in newHooks ==> r["hooks"].fields[event] == base[event]) &&
      (event in newHooks && (event !in base || !Truthy(base[event])) ==> r["hooks"].fields[event] == JArr(newHooks[event])) &&
      (event in newHooks && event in base && Truthy(base[event]) ==>
         base[event].JArr? && Filtered(base[event].items).Success? &&
         r["hooks"].fields[event] == JArr(Filtered(base[event].items).value + newHooks[event]))
  {
    var base := SpreadOf(existing["hooks"]);
    if event in newHooks {
      assert !MergedEvent(base, event, newHooks[event]).Failure?;
    }
  }

  /** A merge throws exactly when an event named by the new hooks has truthy entries it cannot filter. */
  lemma MergeFails(existing: map<string, Json>, newHooks: map<string, seq<Json>>)
    ensures MergeSettings(existing, newHooks).Failure? <==>
      HasHooks(existing) &&
      exists e :: e in newHooks && e in SpreadOf(existing["hooks"]) && Truthy(SpreadOf(existing["hooks"])[e]) &&
        (!SpreadOf(existing["hooks"])[e].JArr? || Filtered(SpreadOf(existing["hooks"])[e].items).Failure?)
  {
  }

  /** Every new entry carries a kex-mem hook, so the filter drops it. */
  predicate AllKexMem(newHooks: map<string, seq<Json>>) {
    forall e, x :: e in newHooks && x in newHooks[e] ==> KeepEntry(x) == Success(false)
  }

  lemma GeneratedAllKexMem()
    ensures AllKexMem(GeneratedHooks())
  {
    var h := JObj(map["type" := JStr("command"), "command" := JStr(SessionStartCommand)]);
    assert IsKexMemHook(h) && h in [h];
    var p := JObj(map["type" := JStr("command"), "command" := JStr(PreCompactCommand)]);
    assert IsKexMemHook(p) && p in [p];
  }

  /** Merging the result again for one event changes nothing. */
  lemma MergedEventAgain(m: map<string, Json>, event: string, kept: seq<Json>, entries: seq<Json>)
    requires event in m && m[event] == JArr(kept + entries)
    requires forall x :: x in kept ==> KeepEntry(x) == Success(true)
    requires forall x :: x in entries ==> KeepEntry(x) == Success(false)
    ensures MergedEvent(m, event, entries) == Success(m[event])
  {
    FilteredKeptThenDropped(kept, entries);
  }

  /** What a merge leaves in a new event: kept entries, then the new ones. */
  lemma MergedEventShape(base: map<string, Json>, event: string, entries: seq<Json>)
    requires MergedEvent(base, event, entries).Success?
    ensures exists kept ::
      MergedEvent(base, event, entries).value == JArr(kept + entries) &&
      forall x :: x in kept ==> KeepEntry(x) == Success(true)
  {
    if event !in base || !Truthy(base[event]) {
      assert [] + entries == entries;
    } else {
      FilteredSpec(base[event].items);
    }
  }

  /** Every new event holds kept entries followed by its new entries. */
  ghost predicate Remergeable(m: map<string, Json>, newHooks: map<string, seq<Json>>) {
    forall e :: e in newHooks ==> e in m && exists kept ::
      m[e] == JArr(kept + newHooks[e]) && forall x :: x in kept ==> KeepEntry(x) == Success(true)
  }

  /** The merged hooks object merges into itself. */
  lemma HooksAgain(m: map<string, Json>, newHooks: map<string, seq<Json>>)
    requires AllKexMem(newHooks) && Remergeable(m, newHooks)
    ensures !SomeEventFails(m, newHooks) && MergedHooks(m, newHooks) == m
  {
    forall e | e in newHooks ensures MergedEvent(m, e, newHooks[e]) == Success(m[e]) {
      var kept :| m[e] == JArr(kept + newHooks[e]) && forall x :: x in kept ==> KeepEntry(x) == Success(true);
      MergedEventAgain(m, e, kept, newHooks[e]);
    }
  }

  /** A successful merge leaves a hooks object of that shape. */
  lemma MergedShape(existing: map<string, Json>, newHooks: map<string, seq<Json>>)
    requires MergeSettings(existing, newHooks).Success?
    ensures var r := MergeSettings(existing, newHooks).value;
      "hooks" in r && r["hooks"].JObj? && Remergeable(r["hooks"].fields, newHooks)
  {
    var m := MergeSettings(existing, newHooks).value["hooks"].fields;
    if !HasHooks(existing) {
      forall e | e in newHooks ensures e in m && m[e] == JArr([] + newHooks[e]) {
        assert [] + newHooks[e] == newHooks[e];
      }
    } else {
      var base := SpreadOf(existing["hooks"]);
      forall e | e in newHooks ensures e in m && exists kept ::
        m[e] == JArr(kept + newHooks[e]) && forall x :: x in kept ==> KeepEntry(x) == Success(true)
      {
        MergedEventShape(base, e, newHooks[e]);
      }
    }
  }

  /** `mergeSettings` is idempotent for hooks made of kex-mem entries, such as the generated ones. */
  lemma MergeIdempotent(existing: map<string, Json>, newHooks: map<string, seq<Json>>)
    requires AllKexMem(newHooks) && MergeSettings(existing, newHooks).Success?
    ensures MergeSettings(MergeSettings(existing, newHooks).value, newHooks) == MergeSettings(existing, newHooks)
  {
    var r := MergeSettings(existing, newHooks).value;
    MergedShape(existing, newHooks);
    var m := r["hooks"].fields;
    HooksAgain(m, newHooks);
    assert HasHooks(r) && SpreadOf(r["hooks"]) == m;
    assert r["hooks" := JObj(m)] == r;
  }

  /** The hooks object once the events in `done` are merged. */
  function PartlyMerged(base: map<string, Json>, newHooks: map<string, seq<Json>>, done: set<string>): map<string, Json>
    requires forall e :: e in newHooks && e in done ==> MergedEvent(base, e, newHooks[e]).Success?
  {
    base + map e | e in newHooks && e in done :: MergedEvent(base, e, newHooks[e]).value
  }

  lemma PartlyMergedStep(base: map<string, Json>, newHooks: map<string, seq<Json>>, done: set<string>, event: string)
    requires forall e :: e in newHooks && e in done ==> MergedEvent(base, e, newHooks[e]).Success?
    requires event in newHooks && event !in done
    ensures var h := PartlyMerged(base, newHooks, done);
      MergedEvent(h, event, newHooks[event]) == MergedEvent(base, event, newHooks[event])
    ensures MergedEvent(base, event, newHooks[event]).Success? ==>
      PartlyMerged(base, newHooks, done + {event}) ==
        PartlyMerged(base, newHooks, done)[event := MergedEvent(base, event, newHooks[event]).value]
  {
  }

  lemma PartlyMergedAll(base: map<string, Json>, newHooks: map<string, seq<Json>>)
    requires !SomeEventFails(base, newHooks)
    ensures PartlyMerged(base, newHooks, newHooks.Keys) == MergedHooks(base, newHooks)
  {
  }

  /** The loop over `Object.entries(newHooks)`, assigning `result.hooks[event]` one event at a time. */
  method MergeEvents(base: map<string, Json>, newHooks: map<string, seq<Json>>) returns (r: Result<map<string, Json>, string>)
    ensures SomeEventFails(base, newHooks) ==> r == Failure(TypeError)
    ensures !SomeEventFails(base, newHooks) ==> r == Success(MergedHooks(base, newHooks))
  {
    var hooks := base;
    var done: set<string> := {};
    while done != newHooks.Keys
      invariant done <= newHooks.Keys
      invariant forall e :: e in newHooks && e in done ==> MergedEvent(base, e, newHooks[e]).Success?
      invariant hooks == PartlyMerged(base, newHooks, done)
      decreases |newHooks.Keys - done|
    {
      var event :| event in newHooks.Keys - done;
      PartlyMergedStep(base, newHooks, done, event);
      var merged := MergedEvent(hooks, event, newHooks[event]);
      if merged.Failure? {
        r := Failure(TypeError);
        return;
      }
      hooks := hooks[event := merged.value];
      done := done + {event};
    }
    PartlyMergedAll(base, newHooks);
    r := Success(hooks);
  }

  /** `mergeSettings`: the copy of the settings, then the hooks replaced or merged. */
  method Merge(existing: map<string, Json>, newHooks: map<string, seq<Json>>) returns (r: Result<map<string, Json>, string>)
    ensures r == MergeSettings(existing, newHooks)
  {
    if !HasHooks(existing) {
      r := Success(existing["hooks" := JObj(HooksJson(newHooks))]);
      return;
    }
    var hooks := MergeEvents(SpreadOf(existing["hooks"]), newHooks);
    match hooks {
      case Failure(e) => r := Failure(e);
      case Success(h) => r := Success(existing["hooks" := JObj(h)]);
    }
  }
}
