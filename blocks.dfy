/**
 * The block classifier and DAG builder of the manager (`checkDirectory` and the
 * pin loop of `componentDidMount` in app.js), as functions on the value of the
 * state they update: the graph `g` and the two caches `nonDirBlocks` and
 * `dirBlocks`. The class `App` in module IpfsManager is proved to update its
 * fields exactly as these functions say; the lemmas here state what the
 * updates mean.
 */
module Blocks {
  import opened Wrappers
  import opened Graphlib
  import opened AppLog

  /** One entry of an object's link list: the target block, its name in the directory and its size. */
  datatype Link = Link(multihash: Hash, name: string, size: nat)

  /** The decoded object `ipfs.object.get` returns: its own multihash and its links. */
  datatype ObjectRecord = ObjectRecord(multihash: Hash, links: seq<Link>)

  /** One entry of `ipfs.pin.ls()`. */
  datatype Pin = Pin(hash: string)

  /** The codec of the CID parsed from a ref, or None when `new CID(ref)` throws. */
  type CidCodec = string -> Option<string>

  /** `ipfs.object.get(ref)`: the object, or None when the call or the decoding fails. */
  type ObjectGet = string -> Option<ObjectRecord>

  /** The module-level state of app.js: the graph and the two block caches. */
  datatype Store = Store(g: GraphValue, nonDirBlocks: set<string>, dirBlocks: map<string, ObjectRecord>)

  /** What a check or a run of checks leaves: the new store, the messages it logged, and whether it threw. */
  datatype Checked = Checked(after: Store, messages: seq<Message>, threw: bool)

  /** The directory heuristic: the first link exists and has a non-empty name. */
  predicate IsDirectory(o: ObjectRecord) {
    |o.links| > 0 && o.links[0].name != ""
  }

  /** Only these two codecs can encode a directory. */
  predicate MayHoldDirectory(codec: string) {
    codec == "dag-pb" || codec == "dag-cbor"
  }

  /** The ref parses to a CID whose codec may hold a directory. */
  predicate DirectoryCodec(codec: Option<string>) {
    codec.Some? && MayHoldDirectory(codec.value)
  }

  function LinkLabel(l: Link): Label {
    Label(l.name, l.size)
  }

  function Targets(links: seq<Link>): set<Hash> {
    set l | l in links :: l.multihash
  }

  /** No later link of `links` points at the same block as link `k`. */
  ghost predicate LastLinkTo(links: seq<Link>, k: int)
    requires 0 <= k < |links|
  {
    forall j :: k < j < |links| ==> links[j].multihash != links[k].multihash
  }

  /** The graph calls of the `forEach` over the links: a node for the target, then the labelled edge. */
  function LinkOps(parent: Hash, links: seq<Link>): seq<Op>
    decreases |links|
  {
    if links == [] then []
    else
      var l := links[|links| - 1];
      LinkOps(parent, links[..|links| - 1]) + [SetNode(l.multihash), SetEdge(parent, l.multihash, LinkLabel(l))]
  }

  /** The graph calls for a directory: its own node, then its links. */
  function DirectoryOps(o: ObjectRecord): seq<Op> {
    [SetNode(o.multihash)] + LinkOps(o.multihash, o.links)
  }

  /** The object checked for `ref`: the cached one, or the fetched one. */
  function Fetched(s: Store, ref: string, get: ObjectGet): Option<ObjectRecord> {
    if ref in s.dirBlocks then Some(s.dirBlocks[ref]) else get(ref)
  }

  /** What the store becomes once the object `o` for `ref` is in hand. */
  function Classify(s: Store, ref: string, o: ObjectRecord): Store {
    if IsDirectory(o) then Store(ApplyAll(s.g, DirectoryOps(o)), s.nonDirBlocks, s.dirBlocks[ref := o])
    else s.(nonDirBlocks := s.nonDirBlocks + {ref})
  }

  /** `checkDirectory(ref)`. */
  function CheckDirectory(s: Store, ref: string, codecOf: CidCodec, get: ObjectGet): Checked {
    if ref in s.nonDirBlocks then Checked(s, [], false)
    else
      match codecOf(ref)
      case None => Checked(s, [], true)
      case Some(codec) =>
        if !MayHoldDirectory(codec) then Checked(s, [], false)
        else
          match Fetched(s, ref, get)
          case None => Checked(s, [Fetching(ref)], false)
          case Some(o) => Checked(Classify(s, ref, o), [Fetching(ref)], false)
  }

  /** The `for` loop over the pins: check each in turn; a check that throws ends the loop. */
  function PinLoop(s: Store, pins: seq<Pin>, codecOf: CidCodec, get: ObjectGet): Checked
    decreases |pins|
  {
    if pins == [] then Checked(s, [], false)
    else
      var before := PinLoop(s, pins[..|pins| - 1], codecOf, get);
      if before.threw then before
      else
        var c := CheckDirectory(before.after, pins[|pins| - 1].hash, codecOf, get);
        Checked(c.after, before.messages + c.messages, c.threw)
  }

  /**
   * The state the code keeps: a well-formed graph, no ref in both caches, and
   * only directories in the directory cache.
   */
  ghost predicate Coherent(s: Store) {
    && Wellformed(s.g)
    && s.dirBlocks.Keys !! s.nonDirBlocks
    && forall r :: r in s.dirBlocks ==> IsDirectory(s.dirBlocks[r])
  }

  // ---------------------------------------------------------------------
  // One call of checkDirectory
  // ---------------------------------------------------------------------

  /** A ref known not to be a directory is skipped: nothing is fetched, logged or changed. */
  lemma SkipsKnownNonDirectory(s: Store, ref: string, codecOf: CidCodec, get: ObjectGet)
    requires ref in s.nonDirBlocks
    ensures CheckDirectory(s, ref, codecOf, get) == Checked(s, [], false)
  {
  }

  /** A CID whose codec is neither dag-pb nor dag-cbor is ignored, before anything is logged. */
  lemma IgnoresOtherCodecs(s: Store, ref: string, codecOf: CidCodec, get: ObjectGet)
    requires ref !in s.nonDirBlocks
    requires codecOf(ref).Some? && !MayHoldDirectory(codecOf(ref).value)
    ensures CheckDirectory(s, ref, codecOf, get) == Checked(s, [], false)
  {
  }

  /** A ref that is not a CID makes the check throw, with nothing changed. */
  lemma ThrowsOnInvalidCid(s: Store, ref: string, codecOf: CidCodec, get: ObjectGet)
    requires ref !in s.nonDirBlocks && codecOf(ref).None?
    ensures CheckDirectory(s, ref, codecOf, get) == Checked(s, [], true)
  {
  }

  /**
   * No fetch is made for a known non-directory, a cached directory or a ref
   * that is not a dag-pb or dag-cbor CID: the outcome does not depend on the
   * fetch at all.
   */
  lemma NoFetchWhenNotNeeded(s: Store, ref: string, codecOf: CidCodec, get1: ObjectGet, get2: ObjectGet)
    requires ref in s.nonDirBlocks || ref in s.dirBlocks || !DirectoryCodec(codecOf(ref))
    ensures CheckDirectory(s, ref, codecOf, get1) == CheckDirectory(s, ref, codecOf, get2)
  {
  }

  /**
   * Once an object is in hand, `ref` goes to `nonDirBlocks` exactly when the
   * object is not a directory, and then the graph and `dirBlocks` are
   * untouched; a directory goes to `dirBlocks` and `nonDirBlocks` is untouched.
   */
  lemma Classification(s: Store, ref: string, codecOf: CidCodec, get: ObjectGet, o: ObjectRecord)
    requires ref !in s.nonDirBlocks && DirectoryCodec(codecOf(ref))
    requires Fetched(s, ref, get) == Some(o)
    ensures CheckDirectory(s, ref, codecOf, get).messages == [Fetching(ref)]
    ensures !CheckDirectory(s, ref, codecOf, get).threw
    ensures ref in CheckDirectory(s, ref, codecOf, get).after.nonDirBlocks <==> !IsDirectory(o)
    ensures IsDirectory(o) ==>
      var a := CheckDirectory(s, ref, codecOf, get).after;
      ref in a.dirBlocks && a.dirBlocks[ref] == o && a.nonDirBlocks == s.nonDirBlocks
    ensures !IsDirectory(o) ==>
      var a := CheckDirectory(s, ref, codecOf, get).after;
      a.g == s.g && a.dirBlocks == s.dirBlocks && a.nonDirBlocks == s.nonDirBlocks + {ref}
  {
  }

  /** One more link adds its target and its parent as nodes and writes the edge between them. */
  lemma LinkOpsStep(parent: Hash, links: seq<Link>)
    requires links != []
    ensures var l := links[|links| - 1];
      && Mentioned(LinkOps(parent, links)) == Mentioned(LinkOps(parent, links[..|links| - 1])) + {parent, l.multihash}
      && Written(LinkOps(parent, links)) == Written(LinkOps(parent, links[..|links| - 1]))[(parent, l.multihash) := LinkLabel(l)]
  {
    var l := links[|links| - 1];
    var prefix := LinkOps(parent, links[..|links| - 1]);
    var tail := [SetNode(l.multihash), SetEdge(parent, l.multihash, LinkLabel(l))];
    MentionedAppend(prefix, tail);
    WrittenAppend(prefix, tail);
    assert tail[..1] == [SetNode(l.multihash)];
    assert [SetNode(l.multihash)][..0] == [];
    assert Mentioned(tail[..1]) == {l.multihash};
    assert tail[1] == SetEdge(parent, l.multihash, LinkLabel(l));
    assert Mentioned(tail) == {l.multihash, parent};
    assert Written(tail[..1]) == map[];
    assert Written(tail) == map[(parent, l.multihash) := LinkLabel(l)];
  }

  /** The links name their parent (when there is one link at least) and their targets, nothing else. */
  lemma {:induction false} LinkOpsMentioned(parent: Hash, links: seq<Link>)
    ensures Mentioned(LinkOps(parent, links)) == (if links == [] then {} else {parent}) + Targets(links)
    decreases |links|
  {
    if links != [] {
      var pre := links[..|links| - 1];
      LinkOpsMentioned(parent, pre);
      LinkOpsStep(parent, links);
      assert links == pre + [links[|links| - 1]];
      assert Targets(links) == Targets(pre) + {links[|links| - 1].multihash};
    }
  }

  /** The links write an edge from `parent` to each target and to nothing else. */
  lemma {:induction false} LinkOpsWritten(parent: Hash, links: seq<Link>)
    ensures forall e :: e in Written(LinkOps(parent, links)) <==> e.0 == parent && e.1 in Targets(links)
    decreases |links|
  {
    if links != [] {
      var pre := links[..|links| - 1];
      var l := links[|links| - 1];
      LinkOpsWritten(parent, pre);
      LinkOpsStep(parent, links);
      assert links == pre + [l];
      assert Targets(links) == Targets(pre) + {l.multihash};
    }
  }

  /** The edge to each target carries the label of the last link to that target. */
  lemma {:induction false} LinkOpsLabels(parent: Hash, links: seq<Link>)
    ensures forall k :: 0 <= k < |links| && LastLinkTo(links, k) ==>
      && (parent, links[k].multihash) in Written(LinkOps(parent, links))
      && Written(LinkOps(parent, links))[(parent, links[k].multihash)] == LinkLabel(links[k])
    decreases |links|
  {
    if links != [] {
      var pre := links[..|links| - 1];
      var l := links[|links| - 1];
      LinkOpsLabels(parent, pre);
      LinkOpsStep(parent, links);
      forall k | 0 <= k < |links| && LastLinkTo(links, k)
        ensures (parent, links[k].multihash) in Written(LinkOps(parent, links))
        ensures Written(LinkOps(parent, links))[(parent, links[k].multihash)] == LinkLabel(links[k])
      {
        if k < |pre| {
          assert links[k] == pre[k];
          assert links[k].multihash != l.multihash;
          assert LastLinkTo(pre, k);
        }
      }
    }
  }

  /**
   * The directory case, nodes: afterwards the directory and every link target
   * are nodes, and the old nodes keep their places.
   */
  lemma DirectoryNodes(s: Store, ref: string, codecOf: CidCodec, get: ObjectGet, o: ObjectRecord)
    requires ref !in s.nonDirBlocks && DirectoryCodec(codecOf(ref))
    requires Fetched(s, ref, get) == Some(o) && IsDirectory(o)
    ensures var h := CheckDirectory(s, ref, codecOf, get).after.g;
      && |h.nodes| >= |s.g.nodes| && h.nodes[..|s.g.nodes|] == s.g.nodes
      && (forall v :: v in h.nodes <==> v in s.g.nodes || v == o.multihash || v in Targets(o.links))
  {
    var ops := DirectoryOps(o);
    var links := LinkOps(o.multihash, o.links);
    assert CheckDirectory(s, ref, codecOf, get).after.g == ApplyAll(s.g, ops);
    LinkOpsMentioned(o.multihash, o.links);
    MentionedAppend([SetNode(o.multihash)], links);
    assert [SetNode(o.multihash)][..0] == [];
    ApplyAllNodes(s.g, ops);
  }

  /**
   * The directory case, edges: there is an edge to every target labelled by
   * the last link to it, and the only edges added or relabelled are those
   * from the directory to its targets.
   */
  lemma DirectoryEdges(s: Store, ref: string, codecOf: CidCodec, get: ObjectGet, o: ObjectRecord)
    requires ref !in s.nonDirBlocks && DirectoryCodec(codecOf(ref))
    requires Fetched(s, ref, get) == Some(o) && IsDirectory(o)
    ensures var h := CheckDirectory(s, ref, codecOf, get).after.g;
      && (forall k :: 0 <= k < |o.links| ==> (o.multihash, o.links[k].multihash) in h.edges)
      && (forall k :: 0 <= k < |o.links| && LastLinkTo(o.links, k) ==>
            h.edges[(o.multihash, o.links[k].multihash)] == LinkLabel(o.links[k]))
      && (forall e :: e in h.edges <==> e in s.g.edges || (e.0 == o.multihash && e.1 in Targets(o.links)))
      && (forall e :: e in s.g.edges && !(e.0 == o.multihash && e.1 in Targets(o.links)) ==>
            h.edges[e] == s.g.edges[e])
  {
    var ops := DirectoryOps(o);
    var links := LinkOps(o.multihash, o.links);
    assert CheckDirectory(s, ref, codecOf, get).after.g == ApplyAll(s.g, ops);
    LinkOpsWritten(o.multihash, o.links);
    LinkOpsLabels(o.multihash, o.links);
    WrittenAppend([SetNode(o.multihash)], links);
    assert [SetNode(o.multihash)][..0] == [];
    assert Written([SetNode(o.multihash)]) == map[];
    assert Written(ops) == Written(links);
    ApplyAllEdges(s.g, ops);
    forall k | 0 <= k < |o.links|
      ensures o.links[k].multihash in Targets(o.links)
    {
      assert o.links[k] in o.links;
    }
  }

  /** A fetch that fails changes nothing but the log, and caches nothing. */
  lemma FailedFetchChangesNothing(s: Store, ref: string, codecOf: CidCodec, get: ObjectGet)
    requires ref !in s.nonDirBlocks && ref !in s.dirBlocks && DirectoryCodec(codecOf(ref))
    requires get(ref).None?
    ensures CheckDirectory(s, ref, codecOf, get) == Checked(s, [Fetching(ref)], false)
  {
  }

  /** Because nothing was cached, a later check whose fetch succeeds classifies the ref. */
  lemma FailedFetchIsRetried(s: Store, ref: string, codecOf: CidCodec, get1: ObjectGet, get2: ObjectGet)
    requires ref !in s.nonDirBlocks && ref !in s.dirBlocks && DirectoryCodec(codecOf(ref))
    requires get1(ref).None? && get2(ref).Some?
    ensures var s1 := CheckDirectory(s, ref, codecOf, get1).after;
      var s2 := CheckDirectory(s1, ref, codecOf, get2).after;
      && (IsDirectory(get2(ref).value) ==> ref in s2.dirBlocks && s2.dirBlocks[ref] == get2(ref).value)
      && (!IsDirectory(get2(ref).value) ==> ref in s2.nonDirBlocks)
  {
  }

  /**
   * A check updates at most one cache, and only at `ref`; a ref it puts into
   * one cache it does not put into the other.
   */
  lemma OneCacheUpdated(s: Store, ref: string, codecOf: CidCodec, get: ObjectGet)
    ensures var a := CheckDirectory(s, ref, codecOf, get).after;
      && (a.nonDirBlocks == s.nonDirBlocks || a.dirBlocks == s.dirBlocks)
      && s.nonDirBlocks <= a.nonDirBlocks <= s.nonDirBlocks + {ref}
      && a.dirBlocks.Keys <= s.dirBlocks.Keys + {ref}
      && (forall r :: r in s.dirBlocks ==> r in a.dirBlocks && (r != ref ==> a.dirBlocks[r] == s.dirBlocks[r]))
      && (ref in a.dirBlocks && ref !in s.dirBlocks ==> ref !in a.nonDirBlocks)
      && (ref in a.nonDirBlocks && ref !in s.nonDirBlocks ==> a.dirBlocks == s.dirBlocks)
  {
  }

  /** A check keeps the store coherent; in particular no ref ever sits in both caches. */
  lemma CheckKeepsCoherent(s: Store, ref: string, codecOf: CidCodec, get: ObjectGet)
    requires Coherent(s)
    ensures Coherent(CheckDirectory(s, ref, codecOf, get).after)
  {
    var f := Fetched(s, ref, get);
    if ref !in s.nonDirBlocks && DirectoryCodec(codecOf(ref)) && f.Some? && IsDirectory(f.value) {
      ApplyAllWellformed(s.g, DirectoryOps(f.value));
    }
  }

  /** The pin loop keeps the store coherent. */
  lemma {:induction false} PinLoopKeepsCoherent(s: Store, pins: seq<Pin>, codecOf: CidCodec, get: ObjectGet)
    requires Coherent(s)
    ensures Coherent(PinLoop(s, pins, codecOf, get).after)
    decreases |pins|
  {
    if pins != [] {
      var before := PinLoop(s, pins[..|pins| - 1], codecOf, get);
      PinLoopKeepsCoherent(s, pins[..|pins| - 1], codecOf, get);
      if !before.threw {
        CheckKeepsCoherent(before.after, pins[|pins| - 1].hash, codecOf, get);
      }
    }
  }

  /** The loop over one more pin: the check of that pin follows the loop over the ones before. */
  lemma PinLoopExtend(s: Store, pins: seq<Pin>, i: nat, codecOf: CidCodec, get: ObjectGet)
    requires i < |pins| && !PinLoop(s, pins[..i], codecOf, get).threw
    ensures var before := PinLoop(s, pins[..i], codecOf, get);
      var c := CheckDirectory(before.after, pins[i].hash, codecOf, get);
      PinLoop(s, pins[..i + 1], codecOf, get) == Checked(c.after, before.messages + c.messages, c.threw)
  {
    assert pins[..i + 1][..i] == pins[..i];
  }

  /** Once a check of some prefix of the pins throws, the loop stops there. */
  lemma {:induction false} PinLoopStopsAtThrow(s: Store, pins: seq<Pin>, k: nat, codecOf: CidCodec, get: ObjectGet)
    requires k <= |pins| && PinLoop(s, pins[..k], codecOf, get).threw
    ensures PinLoop(s, pins, codecOf, get) == PinLoop(s, pins[..k], codecOf, get)
    decreases |pins|
  {
    if k == |pins| {
      assert pins[..k] == pins;
    } else {
      var pre := pins[..|pins| - 1];
      assert pre[..k] == pins[..k];
      PinLoopStopsAtThrow(s, pre, k, codecOf, get);
    }
  }

  // ---------------------------------------------------------------------
  // Re-running the pin loop
  // ---------------------------------------------------------------------

  /**
   * Checking `ref` again cannot classify it anew: it is a known
   * non-directory, not a dag-pb/dag-cbor CID, cached as a directory, or its
   * fetch fails.
   */
  ghost predicate Settled(s: Store, ref: string, codecOf: CidCodec, get: ObjectGet) {
    ref in s.nonDirBlocks || !DirectoryCodec(codecOf(ref)) || ref in s.dirBlocks || get(ref).None?
  }

  /** The graph calls a check of `ref` makes when it replays the cached directory. */
  function Replayed(s: Store, ref: string, codecOf: CidCodec): seq<Op> {
    if ref !in s.nonDirBlocks && DirectoryCodec(codecOf(ref)) && ref in s.dirBlocks && IsDirectory(s.dirBlocks[ref])
    then DirectoryOps(s.dirBlocks[ref])
    else []
  }

  /** The graph calls of replaying every pin of `pins` from the caches of `s`. */
  function PassOps(s: Store, pins: seq<Pin>, codecOf: CidCodec): seq<Op>
    decreases |pins|
  {
    if pins == [] then []
    else PassOps(s, pins[..|pins| - 1], codecOf) + Replayed(s, pins[|pins| - 1].hash, codecOf)
  }

  /** The check throws: the ref is not a known non-directory and is not a CID. */
  predicate Throws(nonDirBlocks: set<string>, ref: string, codecOf: CidCodec) {
    ref !in nonDirBlocks && codecOf(ref).None?
  }

  /** The index of the first pin whose check throws, or the number of pins. */
  function FirstThrow(nonDirBlocks: set<string>, pins: seq<Pin>, codecOf: CidCodec): (k: nat)
    ensures k <= |pins|
    ensures k < |pins| ==> Throws(nonDirBlocks, pins[k].hash, codecOf)
    ensures forall i :: 0 <= i < k ==> !Throws(nonDirBlocks, pins[i].hash, codecOf)
    decreases |pins|
  {
    if pins == [] then 0
    else
      var k := FirstThrow(nonDirBlocks, pins[..|pins| - 1], codecOf);
      if k < |pins| - 1 then k
      else if Throws(nonDirBlocks, pins[|pins| - 1].hash, codecOf) then |pins| - 1
      else |pins|
  }

  /**
   * One check: the graph calls it makes are what the resulting caches replay
   * for the ref it checked, which is settled afterwards; a ref that was
   * settled stays settled and replays the same calls; and whether a ref that
   * is not a CID is a known non-directory does not change.
   */
  lemma StepReplays(s: Store, x: string, codecOf: CidCodec, get: ObjectGet)
    ensures var a := CheckDirectory(s, x, codecOf, get).after;
      && a.g == ApplyAll(s.g, Replayed(a, x, codecOf))
      && Settled(a, x, codecOf, get)
      && (forall r :: Settled(s, r, codecOf, get) ==>
            Settled(a, r, codecOf, get) && Replayed(a, r, codecOf) == Replayed(s, r, codecOf))
      && (forall r :: codecOf(r).None? ==> (r in a.nonDirBlocks <==> r in s.nonDirBlocks))
  {
    var a := CheckDirectory(s, x, codecOf, get).after;
    forall r | Settled(s, r, codecOf, get)
      ensures Settled(a, r, codecOf, get) && Replayed(a, r, codecOf) == Replayed(s, r, codecOf)
    {
      if r == x && r in s.dirBlocks && r !in s.nonDirBlocks && DirectoryCodec(codecOf(r)) {
        assert IsDirectory(s.dirBlocks[r]) ==> a.dirBlocks == s.dirBlocks[r := s.dirBlocks[r]];
        assert s.dirBlocks[r := s.dirBlocks[r]] == s.dirBlocks;
      }
    }
  }

  lemma {:induction false} PassOpsCongruent(s1: Store, s2: Store, pins: seq<Pin>, codecOf: CidCodec)
    requires forall i :: 0 <= i < |pins| ==> Replayed(s1, pins[i].hash, codecOf) == Replayed(s2, pins[i].hash, codecOf)
    ensures PassOps(s1, pins, codecOf) == PassOps(s2, pins, codecOf)
    decreases |pins|
  {
    if pins != [] {
      PassOpsCongruent(s1, s2, pins[..|pins| - 1], codecOf);
    }
  }

  /**
   * A run of the pin loop keeps settled refs settled, replaying the same
   * calls, and does not change whether a ref that is not a CID is a known
   * non-directory.
   */
  lemma {:induction false} PinLoopPreserves(s: Store, pins: seq<Pin>, codecOf: CidCodec, get: ObjectGet)
    ensures var a := PinLoop(s, pins, codecOf, get).after;
      && (forall r :: Settled(s, r, codecOf, get) ==>
            Settled(a, r, codecOf, get) && Replayed(a, r, codecOf) == Replayed(s, r, codecOf))
      && (forall r :: codecOf(r).None? ==> (r in a.nonDirBlocks <==> r in s.nonDirBlocks))
      && s.nonDirBlocks <= a.nonDirBlocks
    decreases |pins|
  {
    if pins != [] {
      var before := PinLoop(s, pins[..|pins| - 1], codecOf, get);
      PinLoopPreserves(s, pins[..|pins| - 1], codecOf, get);
      if !before.threw {
        StepReplays(before.after, pins[|pins| - 1].hash, codecOf, get);
      }
    }
  }

  /** The pin loop throws exactly when some pin throws, judged by the non-directories known at the start. */
  lemma {:induction false} PinLoopThrows(s: Store, pins: seq<Pin>, codecOf: CidCodec, get: ObjectGet)
    ensures PinLoop(s, pins, codecOf, get).threw <==> FirstThrow(s.nonDirBlocks, pins, codecOf) < |pins|
    decreases |pins|
  {
    if pins != [] {
      var pre := pins[..|pins| - 1];
      PinLoopThrows(s, pre, codecOf, get);
      PinLoopPreserves(s, pre, codecOf, get);
    }
  }

  /** Every pin the loop went through, up to the one that threw, is settled at the end. */
  lemma {:induction false} PinLoopSettles(s: Store, pins: seq<Pin>, codecOf: CidCodec, get: ObjectGet)
    ensures forall i :: 0 <= i < FirstThrow(s.nonDirBlocks, pins, codecOf) ==>
      Settled(PinLoop(s, pins, codecOf, get).after, pins[i].hash, codecOf, get)
    decreases |pins|
  {
    if pins != [] {
      var pre := pins[..|pins| - 1];
      var before := PinLoop(s, pre, codecOf, get);
      var k := FirstThrow(s.nonDirBlocks, pins, codecOf);
      PinLoopSettles(s, pre, codecOf, get);
      PinLoopThrows(s, pre, codecOf, get);
      if before.threw {
        forall i | 0 <= i < k
          ensures Settled(PinLoop(s, pins, codecOf, get).after, pins[i].hash, codecOf, get)
        {
          assert pins[i] == pre[i];
        }
      } else {
        var q := before.after;
        var x := pins[|pins| - 1].hash;
        var a := CheckDirectory(q, x, codecOf, get).after;
        assert PinLoop(s, pins, codecOf, get).after == a;
        StepReplays(q, x, codecOf, get);
        forall i | 0 <= i < k
          ensures Settled(a, pins[i].hash, codecOf, get)
        {
          if i < |pre| {
            assert pins[i] == pre[i];
            assert Settled(q, pre[i].hash, codecOf, get);
          }
        }
      }
    }
  }

  /** A check after a run that did not throw replays that run's pins as before. */
  lemma StepKeepsPassOps(s: Store, pre: seq<Pin>, p: Pin, codecOf: CidCodec, get: ObjectGet)
    requires !PinLoop(s, pre, codecOf, get).threw
    ensures var q := PinLoop(s, pre, codecOf, get).after;
      PassOps(CheckDirectory(q, p.hash, codecOf, get).after, pre, codecOf) == PassOps(q, pre, codecOf)
  {
    var q := PinLoop(s, pre, codecOf, get).after;
    var a := CheckDirectory(q, p.hash, codecOf, get).after;
    PinLoopSettles(s, pre, codecOf, get);
    PinLoopThrows(s, pre, codecOf, get);
    StepReplays(q, p.hash, codecOf, get);
    forall i | 0 <= i < |pre|
      ensures Replayed(a, pre[i].hash, codecOf) == Replayed(q, pre[i].hash, codecOf)
    {
      assert Settled(q, pre[i].hash, codecOf, get);
    }
    PassOpsCongruent(a, q, pre, codecOf);
  }

  /**
   * Up to the pin that threw, the graph calls of a run of the pin loop are
   * the replay, from the caches it ends with, of every pin it went through.
   */
  lemma {:induction false} PinLoopReplays(s: Store, pins: seq<Pin>, codecOf: CidCodec, get: ObjectGet)
    ensures var c := PinLoop(s, pins, codecOf, get);
      c.after.g == ApplyAll(s.g, PassOps(c.after, pins[..FirstThrow(s.nonDirBlocks, pins, codecOf)], codecOf))
    decreases |pins|
  {
    var c := PinLoop(s, pins, codecOf, get);
    var k := FirstThrow(s.nonDirBlocks, pins, codecOf);
    if pins == [] {
      assert pins[..k] == [];
    } else {
      var pre := pins[..|pins| - 1];
      var p := pins[|pins| - 1];
      var before := PinLoop(s, pre, codecOf, get);
      PinLoopReplays(s, pre, codecOf, get);
      PinLoopThrows(s, pre, codecOf, get);
      if before.threw {
        assert pins[..k] == pre[..k];
      } else {
        assert pre[..|pre|] == pre;
        ReplaysOneMore(s, pins, codecOf, get);
      }
    }
  }

  /** The step of `PinLoopReplays` past a run that did not throw. */
  lemma ReplaysOneMore(s: Store, pins: seq<Pin>, codecOf: CidCodec, get: ObjectGet)
    requires pins != []
    requires var before := PinLoop(s, pins[..|pins| - 1], codecOf, get);
      && !before.threw
      && FirstThrow(s.nonDirBlocks, pins[..|pins| - 1], codecOf) == |pins| - 1
      && before.after.g == ApplyAll(s.g, PassOps(before.after, pins[..|pins| - 1], codecOf))
    ensures var c := PinLoop(s, pins, codecOf, get);
      c.after.g == ApplyAll(s.g, PassOps(c.after, pins[..FirstThrow(s.nonDirBlocks, pins, codecOf)], codecOf))
  {
    var pre := pins[..|pins| - 1];
    var p := pins[|pins| - 1];
    var q := PinLoop(s, pre, codecOf, get).after;
    var a := CheckDirectory(q, p.hash, codecOf, get).after;
    var k := FirstThrow(s.nonDirBlocks, pins, codecOf);
    StepKeepsPassOps(s, pre, p, codecOf, get);
    StepReplays(q, p.hash, codecOf, get);
    if k == |pins| {
      assert pins[..k] == pins;
      assert PassOps(a, pins, codecOf) == PassOps(a, pre, codecOf) + Replayed(a, p.hash, codecOf);
      ApplyAllAppend(s.g, PassOps(a, pre, codecOf), Replayed(a, p.hash, codecOf));
    } else {
      assert pins[..k] == pre;
    }
  }

  /** Where a run throws depends only on which refs that are not CIDs are known non-directories. */
  lemma {:induction false} FirstThrowAgrees(n1: set<string>, n2: set<string>, pins: seq<Pin>, codecOf: CidCodec)
    requires forall r :: codecOf(r).None? ==> (r in n1 <==> r in n2)
    ensures FirstThrow(n1, pins, codecOf) == FirstThrow(n2, pins, codecOf)
    decreases |pins|
  {
    if pins != [] {
      FirstThrowAgrees(n1, n2, pins[..|pins| - 1], codecOf);
    }
  }

  /**
   * Running the pin loop a second time over the same pins, with the same
   * answers from the node, leaves the graph as the first run left it:
   * non-directories are skipped, directories are replayed from `dirBlocks`,
   * and replayed `setEdge` calls overwrite with the labels already there.
   */
  lemma PinLoopIdempotent(s: Store, pins: seq<Pin>, codecOf: CidCodec, get: ObjectGet)
    ensures var s1 := PinLoop(s, pins, codecOf, get).after;
      PinLoop(s1, pins, codecOf, get).after.g == s1.g
  {
    var s1 := PinLoop(s, pins, codecOf, get).after;
    var s2 := PinLoop(s1, pins, codecOf, get).after;
    PinLoopReplays(s, pins, codecOf, get);
    PinLoopReplays(s1, pins, codecOf, get);
    PinLoopSettles(s, pins, codecOf, get);
    PinLoopPreserves(s, pins, codecOf, get);
    PinLoopPreserves(s1, pins, codecOf, get);
    var k := FirstThrow(s.nonDirBlocks, pins, codecOf);
    FirstThrowAgrees(s.nonDirBlocks, s1.nonDirBlocks, pins, codecOf);
    var done := pins[..k];
    forall i | 0 <= i < |done|
      ensures Replayed(s2, done[i].hash, codecOf) == Replayed(s1, done[i].hash, codecOf)
    {
      assert done[i] == pins[i];
      assert Settled(s1, pins[i].hash, codecOf, get);
    }
    PassOpsCongruent(s2, s1, done, codecOf);
    ApplyAllTwice(s.g, PassOps(s1, done, codecOf));
  }
}
