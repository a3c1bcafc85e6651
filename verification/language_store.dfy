/**
 * The module-wide state of the bundled revision (dist/paragraph_i18n.mjs):
 * the active language `n`, the registry `r` of language-change callbacks,
 * and the live paragraph instances those callbacks belong to.
 *
 * Every construction pushes one callback that schedules a repaint of the
 * new instance, so a callback is recorded by the index of its instance.
 * The queue of animation-frame callbacks is kept as one pending flag per
 * instance: a queued repaint reads the state only when its frame runs, so
 * any number of them for one instance writes the same value as one.
 */
module LanguageStore {
  import G = GlobalParagraph
  import BlockView
  import opened Wrappers

  /** The initial value of `n`. */
  const InitialLanguage: BlockView.Language := "en"

  datatype Store = Store(active: BlockView.Language, registry: seq<nat>, blocks: seq<G.Block>)

  /** Callback `i` of the registry is the one instance `i` pushed. */
  predicate Valid(s: Store)
  {
    && |s.registry| == |s.blocks|
    && forall i :: 0 <= i < |s.registry| ==> s.registry[i] == i
  }

  /** The state at module load: language "en", no callbacks, no instances. */
  function Init(): (s: Store)
    ensures s.active == InitialLanguage && s.registry == [] && s.blocks == []
    ensures Valid(s)
  {
    Store(InitialLanguage, [], [])
  }

  /** `getActiveLanguage()`. */
  function GetActiveLanguage(s: Store): (r: BlockView.Language)
    ensures r == s.active
  {
    s.active
  }

  /**
   * Constructing an instance: it is built in the current language and
   * appends exactly one callback, its own, to the registry.
   */
  function Construct(s: Store, data: G.SavedData, config: BlockView.Config, readOnly: bool): (r: Store)
    ensures r.active == s.active
    ensures r.registry == s.registry + [|s.blocks|]
    ensures r.blocks == s.blocks + [G.Construct(data, config, readOnly, s.active)]
    ensures Valid(s) ==> Valid(r)
  {
    Store(s.active, s.registry + [|s.blocks|], s.blocks + [G.Construct(data, config, readOnly, s.active)])
  }

  /** What one callback does when fired: queue a repaint of its instance. */
  function Schedule(b: G.Block): (r: G.Block)
    ensures r.repaintPending
    ensures r == b.(repaintPending := r.repaintPending)
  {
    b.(repaintPending := true)
  }

  /**
   * Fires the callbacks `ids` one after another. Every instance named in
   * `ids` ends up with a repaint queued and nothing else about it changes;
   * the others are untouched. Firing one callback touches only its own
   * instance and queuing twice is the same as once, so the outcome does not
   * depend on the order. The returned trace lists the callbacks in the order
   * they fired; it is built from `ids` one by one, so equal to `ids` by
   * construction.
   */
  function Notify(blocks: seq<G.Block>, ids: seq<nat>): (r: (seq<G.Block>, seq<nat>))
    requires forall i :: 0 <= i < |ids| ==> ids[i] < |blocks|
    ensures r.1 == ids
    ensures |r.0| == |blocks|
    ensures forall j :: 0 <= j < |blocks| && j in ids ==> r.0[j] == Schedule(blocks[j])
    ensures forall j :: 0 <= j < |blocks| && j !in ids ==> r.0[j] == blocks[j]
    decreases |ids|
  {
    if ids == [] then (blocks, [])
    else
      var fired := blocks[ids[0] := Schedule(blocks[ids[0]])];
      var rest := Notify(fired, ids[1..]);
      (rest.0, [ids[0]] + rest.1)
  }

  /**
   * Only which callbacks fire matters, not their order or repetitions: two
   * notifications naming the same instances leave the same instances.
   */
  lemma NotifyIgnoresOrder(blocks: seq<G.Block>, ids1: seq<nat>, ids2: seq<nat>)
    requires forall i :: 0 <= i < |ids1| ==> ids1[i] < |blocks|
    requires forall i :: 0 <= i < |ids2| ==> ids2[i] < |blocks|
    requires forall x :: x in ids1 <==> x in ids2
    ensures Notify(blocks, ids1).0 == Notify(blocks, ids2).0
  {
    var r1 := Notify(blocks, ids1).0;
    var r2 := Notify(blocks, ids2).0;
    assert forall j :: 0 <= j < |blocks| ==> r1[j] == r2[j];
  }

  /**
   * `setActiveLanguage(v)`: the language becomes `v`, then every registered
   * callback fires exactly once, in registration order (the returned trace).
   */
  function SetActiveLanguage(s: Store, v: BlockView.Language): (r: (Store, seq<nat>))
    requires Valid(s)
    ensures GetActiveLanguage(r.0) == v
    ensures r.1 == s.registry && r.0.registry == s.registry
    ensures |r.0.blocks| == |s.blocks| && Valid(r.0)
    ensures forall i :: 0 <= i < |s.blocks| ==> r.0.blocks[i] == Schedule(s.blocks[i])
  {
    assert forall i :: 0 <= i < |s.blocks| ==> i in s.registry by {
      forall i | 0 <= i < |s.blocks|
        ensures i in s.registry
      {
        assert s.registry[i] == i;
      }
    }
    var notified := Notify(s.blocks, s.registry);
    (Store(v, s.registry, notified.0), notified.1)
  }

  /** The animation frame: each queued repaint runs, in the language current at that frame. */
  function FlushFrame(s: Store): (r: Store)
    ensures r.active == s.active && r.registry == s.registry && |r.blocks| == |s.blocks|
    ensures forall i :: 0 <= i < |s.blocks| ==> r.blocks[i] == G.FlushFrame(s.blocks[i], s.active)
  {
    Store(s.active, s.registry, seq(|s.blocks|, i requires 0 <= i < |s.blocks| => G.FlushFrame(s.blocks[i], s.active)))
  }

  /**
   * After a language change and the next frame, every rendered instance
   * shows its text in the new language, or is empty when it has none, and
   * no stored text has changed.
   */
  lemma SwitchThenFlushShowsNewLanguage(s: Store, v: BlockView.Language)
    requires Valid(s)
    ensures var after := FlushFrame(SetActiveLanguage(s, v).0);
      && GetActiveLanguage(after) == v
      && |after.blocks| == |s.blocks|
      && forall i :: 0 <= i < |s.blocks| ==>
           && after.blocks[i].translations == s.blocks[i].translations
           && !after.blocks[i].repaintPending
           && (s.blocks[i].view.Some? ==>
                 after.blocks[i].view == Some(BlockView.TextOrEmpty(G.Slot(s.blocks[i].translations, v))))
  {
  }

  /** The events that change the store. */
  datatype Event =
    | NewBlock(data: G.SavedData, config: BlockView.Config, readOnly: bool)
    | SetLanguage(v: BlockView.Language)
    | Frame

  function Step(s: Store, e: Event): (r: Store)
    requires Valid(s)
    ensures Valid(r)
  {
    match e
    case NewBlock(data, config, readOnly) => Construct(s, data, config, readOnly)
    case SetLanguage(v) => SetActiveLanguage(s, v).0
    case Frame => FlushFrame(s)
  }

  function Run(s: Store, events: seq<Event>): (r: Store)
    requires Valid(s)
    ensures Valid(r)
    decreases |events|
  {
    if events == [] then s else Run(Step(s, events[0]), events[1..])
  }

  /** The language of the last `SetLanguage` among `events`, or `current` when there is none. */
  function LastSet(current: BlockView.Language, events: seq<Event>): BlockView.Language
    decreases |events|
  {
    if events == [] then current
    else LastSet(if events[0].SetLanguage? then events[0].v else current, events[1..])
  }

  /** The number of instances `events` construct. */
  function Constructions(events: seq<Event>): nat
    decreases |events|
  {
    if events == [] then 0 else (if events[0].NewBlock? then 1 else 0) + Constructions(events[1..])
  }

  /**
   * Over any run: `getActiveLanguage` returns the last value set; the
   * registry only grows, by exactly one callback per construction, and it
   * always holds one callback per instance.
   */
  lemma {:induction false} RunKeepsLanguageAndRegistry(s: Store, events: seq<Event>)
    requires Valid(s)
    ensures GetActiveLanguage(Run(s, events)) == LastSet(s.active, events)
    ensures s.registry <= Run(s, events).registry
    ensures |Run(s, events).registry| == |s.registry| + Constructions(events)
    decreases |events|
  {
    if events != [] {
      var next := Step(s, events[0]);
      RunKeepsLanguageAndRegistry(next, events[1..]);
      assert next.active == (if events[0].SetLanguage? then events[0].v else s.active);
      assert s.registry <= next.registry;
    }
  }

  /**
   * A language change does not create slots: an instance built from "Hi" in
   * "en" has no "fr" slot after `setActiveLanguage("fr")`, which is the
   * state in which the bundled `merge` stores "undefined" in front of the text.
   */
  lemma SwitchLeavesNewSlotMissing()
    ensures var s := Run(Init(), [NewBlock(G.Raw("Hi"), BlockView.Config(None, None), false), SetLanguage("fr")]);
      && |s.blocks| == 1 && GetActiveLanguage(s) == "fr"
      && s.blocks[0].translations == map["en" := "Hi"]
  {
    var s0 := Init();
    var s1 := Step(s0, NewBlock(G.Raw("Hi"), BlockView.Config(None, None), false));
    assert s1.blocks[0].translations == map["en" := "Hi"];
    var s2 := Step(s1, SetLanguage("fr"));
    assert Run(Init(), [NewBlock(G.Raw("Hi"), BlockView.Config(None, None), false), SetLanguage("fr")]) == Run(s1, [SetLanguage("fr")]);
    assert Run(s1, [SetLanguage("fr")]) == Run(s2, []);
  }
}
