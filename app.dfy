/**
 * The `App` component of app.js, reduced to the state it updates: the
 * module-level graph `g` and block caches `nonDirBlocks` and `dirBlocks`, and
 * the component state `log`, `logIndex`, `npins` and `sources`. Each method is
 * proved to update that state as the functions of module Blocks and AppLog
 * describe.
 */
module IpfsManager {
  import opened Wrappers
  import opened Graphlib
  import opened AppLog
  import opened Blocks

  /** The messages `componentDidMount` logs once the pins are listed, given the outcome of the pin loop. */
  function ReadMessages(pins: seq<Pin>, c: Checked): seq<Message> {
    [GotRefs(|pins|)] + c.messages + (if c.threw then [] else [FinishedReading])
  }

  /** Two steps of the `forEach` over the links, as graph calls. */
  lemma LinkOpsExtend(g0: GraphValue, parent: Hash, links: seq<Link>, i: nat)
    requires i < |links|
    ensures var prefix := [SetNode(parent)] + LinkOps(parent, links[..i]);
      var l := links[i];
      ApplyAll(g0, [SetNode(parent)] + LinkOps(parent, links[..i + 1]))
        == AddEdge(AddNode(ApplyAll(g0, prefix), l.multihash), parent, l.multihash, LinkLabel(l))
  {
    var prefix := [SetNode(parent)] + LinkOps(parent, links[..i]);
    var l := links[i];
    var a := SetNode(l.multihash);
    var b := SetEdge(parent, l.multihash, LinkLabel(l));
    assert links[..i + 1][..i] == links[..i];
    assert [SetNode(parent)] + LinkOps(parent, links[..i + 1]) == prefix + [a, b];
    assert (prefix + [a, b])[..|prefix| + 1] == prefix + [a];
    assert (prefix + [a])[..|prefix|] == prefix;
  }

  class App {
    const g: Graph
    var nonDirBlocks: set<string>
    var dirBlocks: map<string, ObjectRecord>
    var log: seq<Entry>
    var logIndex: nat
    var npins: Option<nat>
    var sources: seq<Hash>
    /** Every message logged since the component was created, oldest first. */
    ghost var history: seq<Message>

    /** The module-level state the manager builds. */
    function StoreValue(): Store
      reads this, g
    {
      Store(g.Value(), nonDirBlocks, dirBlocks)
    }

    /** The graph is well formed, and the log is what logging `history` from the initial state gives. */
    ghost predicate Valid()
      reads this, g
    {
      && g.Valid()
      && log == LoggedAll([], 1, history)
      && logIndex == 1 + |history|
    }

    /** The component as first rendered, with the caches read back from storage. */
    constructor (storedNonDirBlocks: set<string>, storedDirBlocks: map<string, ObjectRecord>)
      ensures Valid() && fresh(g)
      ensures StoreValue() == Store(Empty, storedNonDirBlocks, storedDirBlocks)
      ensures log == [] && logIndex == 1 && npins == None && sources == [] && history == []
    {
      g := new Graph();
      nonDirBlocks := storedNonDirBlocks;
      dirBlocks := storedDirBlocks;
      log := [];
      logIndex := 1;
      npins := None;
      sources := [];
      history := [];
    }

    /** `log(message)`: the newest entry goes first, the log is cut to 50 entries, the index moves on. */
    method Log(m: Message)
      requires Valid()
      modifies this
      ensures Valid()
      ensures log == Logged(old(log), old(logIndex), m) && logIndex == old(logIndex) + 1
      ensures history == old(history) + [m]
      ensures nonDirBlocks == old(nonDirBlocks) && dirBlocks == old(dirBlocks)
      ensures npins == old(npins) && sources == old(sources)
    {
      LoggedAllSnoc([], 1, history, m);
      log := [Entry(logIndex, m)] + log;
      log := log[..Min(|log|, Capacity)];
      logIndex := logIndex + 1;
      history := history + [m];
    }

    /** `checkDirectory(ref)`; `completed` is false when the check throws. */
    method CheckDirectory(ref: string, codecOf: CidCodec, get: ObjectGet) returns (completed: bool)
      requires Valid()
      modifies this, g
      ensures Valid()
      ensures var c := Blocks.CheckDirectory(old(StoreValue()), ref, codecOf, get);
        && StoreValue() == c.after
        && completed == !c.threw
        && history == old(history) + c.messages
      ensures npins == old(npins) && sources == old(sources)
    {
      if ref in nonDirBlocks {
        return true;
      }
      var cid := codecOf(ref);
      if cid.None? {
        return false;
      }
      if cid.value != "dag-pb" && cid.value != "dag-cbor" {
        return true;
      }
      Log(Fetching(ref));
      assert StoreValue() == old(StoreValue());
      var fetched := if ref in dirBlocks then Some(dirBlocks[ref]) else get(ref);
      if fetched.None? {
        // the fetch failed: the error is caught and logged to the console
        return true;
      }
      var o := fetched.value;
      if |o.links| > 0 && o.links[0].name != "" {
        AddDirectory(o);
        dirBlocks := dirBlocks[ref := o];
      } else {
        nonDirBlocks := nonDirBlocks + {ref};
      }
      return true;
    }

    /** The directory branch of `checkDirectory`: the directory's node, then a node and an edge per link. */
    method AddDirectory(o: ObjectRecord)
      requires Valid()
      modifies g
      ensures Valid()
      ensures g.Value() == ApplyAll(old(g.Value()), DirectoryOps(o))
    {
      ghost var g0 := g.Value();
      g.SetNode(o.multihash);
      assert [SetNode(o.multihash)][..0] == [];
      assert o.links[..0] == [];
      var i := 0;
      while i < |o.links|
        invariant 0 <= i <= |o.links|
        invariant g.Valid()
        invariant g.Value() == ApplyAll(g0, [SetNode(o.multihash)] + LinkOps(o.multihash, o.links[..i]))
      {
        var l := o.links[i];
        LinkOpsExtend(g0, o.multihash, o.links, i);
        g.SetNode(l.multihash);
        g.SetEdge(o.multihash, l.multihash, Label(l.name, l.size));
        i := i + 1;
      }
      assert o.links[..i] == o.links;
    }

    /** The `for` loop of `componentDidMount` over the pins; `completed` is false when a check threw. */
    method CheckPins(pins: seq<Pin>, codecOf: CidCodec, get: ObjectGet) returns (completed: bool)
      requires Valid()
      modifies this, g
      ensures Valid()
      ensures var c := PinLoop(old(StoreValue()), pins, codecOf, get);
        && StoreValue() == c.after
        && completed == !c.threw
        && history == old(history) + c.messages
      ensures npins == old(npins) && sources == old(sources)
    {
      ghost var s0 := StoreValue();
      var i := 0;
      assert pins[..0] == [];
      while i < |pins|
        invariant 0 <= i <= |pins|
        invariant Valid()
        invariant !PinLoop(s0, pins[..i], codecOf, get).threw
        invariant StoreValue() == PinLoop(s0, pins[..i], codecOf, get).after
        invariant history == old(history) + PinLoop(s0, pins[..i], codecOf, get).messages
        invariant npins == old(npins) && sources == old(sources)
      {
        ghost var before := PinLoop(s0, pins[..i], codecOf, get);
        completed := CheckDirectory(pins[i].hash, codecOf, get);
        ghost var step := Blocks.CheckDirectory(before.after, pins[i].hash, codecOf, get);
        PinLoopExtend(s0, pins, i, codecOf, get);
        assert history == old(history) + (before.messages + step.messages);
        if !completed {
          PinLoopStopsAtThrow(s0, pins, i + 1, codecOf, get);
          return;
        }
        i := i + 1;
      }
      assert pins[..i] == pins;
      completed := true;
    }

    /**
     * `componentDidMount()`: list the pins (None when `ipfs.pin.ls` fails),
     * check each in turn, then take the graph's sources as the roots to show.
     * A check that throws ends the method there.
     */
    method ComponentDidMount(listed: Option<seq<Pin>>, codecOf: CidCodec, get: ObjectGet)
      requires Valid()
      modifies this, g
      ensures Valid()
      ensures listed.None? ==>
        && StoreValue() == old(StoreValue())
        && history == old(history) + [ReadingPins]
        && npins == old(npins) && sources == old(sources)
      ensures listed.Some? ==>
        var c := PinLoop(old(StoreValue()), listed.value, codecOf, get);
        && StoreValue() == c.after
        && npins == Some(|listed.value|)
        && history == old(history) + [ReadingPins] + ReadMessages(listed.value, c)
        && sources == (if c.threw then old(sources) else Sources(c.after.g))
    {
      Log(ReadingPins);
      assert StoreValue() == old(StoreValue());
      if listed.Some? {
        ReadRefs(listed.value, codecOf, get);
      }
    }

    /** `componentDidMount()` once the pins are listed: log their number, check them, show the roots. */
    method ReadRefs(pins: seq<Pin>, codecOf: CidCodec, get: ObjectGet)
      requires Valid()
      modifies this, g
      ensures Valid()
      ensures var c := PinLoop(old(StoreValue()), pins, codecOf, get);
        && StoreValue() == c.after
        && npins == Some(|pins|)
        && history == old(history) + ReadMessages(pins, c)
        && sources == (if c.threw then old(sources) else Sources(c.after.g))
    {
      ghost var c := PinLoop(old(StoreValue()), pins, codecOf, get);
      Log(GotRefs(|pins|));
      npins := Some(|pins|);
      assert StoreValue() == old(StoreValue());
      ghost var read := [GotRefs(|pins|)] + c.messages;
      var completed := CheckPins(pins, codecOf, get);
      assert StoreValue() == c.after && completed == !c.threw;
      assert history == old(history) + read;
      if completed {
        FinishReading();
        assert ReadMessages(pins, c) == read + [FinishedReading];
      } else {
        assert ReadMessages(pins, c) == read;
      }
    }

    /** The end of `componentDidMount()`: log that reading is over and show the graph's sources. */
    method FinishReading()
      requires Valid()
      modifies this
      ensures Valid()
      ensures StoreValue() == old(StoreValue()) && npins == old(npins)
      ensures history == old(history) + [FinishedReading]
      ensures sources == Sources(g.Value())
    {
      Log(FinishedReading);
      sources := Sources(g.Value());
    }
  }
}
