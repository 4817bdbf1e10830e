/** The event queue's delta compressor and its private store (ksdn/eventqueue.go). */
module EventQueue {
  import opened Prelude

  datatype DeltaType = Added | Updated | Deleted | Sync

  /** An object with the result of the key function on it; `None` when it has no key. */
  datatype Object<V> = Object(key: Option<string>, body: V)

  datatype Delta<V> = Delta(kind: DeltaType, obj: Object<V>)

  datatype Panic = Unkeyable | InvalidTransition(from: DeltaType, to: DeltaType)

  datatype Action = Compress(kind: DeltaType) | Drop | Invalid

  /** The action matrix: what two successive deltas of one object combine to. */
  function Combine(older: DeltaType, newer: DeltaType): Action {
    match (older, newer)
    case (Added, Sync) => Compress(Added)
    case (Added, Updated) => Compress(Added)
    case (Added, Deleted) => Drop
    case (Sync, Sync) => Compress(Sync)
    case (Sync, Updated) => Compress(Sync)
    case (Sync, Deleted) => Compress(Deleted)
    case (Updated, Updated) => Compress(Updated)
    case (Updated, Deleted) => Compress(Deleted)
    case (Deleted, Added) => Compress(Updated)
    case (Deleted, Sync) => Compress(Sync)
    case _ => Invalid
  }

  // ---------------------------------------------------------------- specification

  function Without<V>(ds: seq<Delta<V>>, key: string): seq<Delta<V>>
    decreases |ds|
  {
    if ds == [] then [] else
      var init, last := ds[..|ds| - 1], ds[|ds| - 1];
      Without(init, key) + if last.obj.key.Some? && last.obj.key.value != key then [last] else []
  }

  /** The type of the delta a list holds for a key. */
  function KindIn<V>(ds: seq<Delta<V>>, key: string): Option<DeltaType>
    decreases |ds|
  {
    if ds == [] then None
    else if ds[|ds| - 1].obj.key == Some(key) then Some(ds[|ds| - 1].kind)
    else KindIn(ds[..|ds| - 1], key)
  }

  function Push<V>(ds: seq<Delta<V>>, d: Delta<V>): Result<seq<Delta<V>>, Panic> {
    if d.obj.key.None? then Err(Unkeyable) else
      var key := d.obj.key.value;
      match KindIn(ds, key)
      case None => Ok(ds + [d])
      case Some(older) =>
        match Combine(older, d.kind)
        case Compress(kind) => Ok(Without(ds, key) + [Delta(kind, d.obj)])
        case Drop => Ok(Without(ds, key))
        case Invalid => Err(InvalidTransition(older, d.kind))
  }

  /** Pushes the deltas of `more` one after the other onto an already compressed list. */
  function CompressOnto<V>(done: seq<Delta<V>>, more: seq<Delta<V>>): Result<seq<Delta<V>>, Panic>
    decreases |more|
  {
    if more == [] then Ok(done) else
      match CompressOnto(done, more[..|more| - 1])
      case Ok(ds) => Push(ds, more[|more| - 1])
      case Err(p) => Err(p)
  }

  function Compressed<V>(ds: seq<Delta<V>>): Result<seq<Delta<V>>, Panic> {
    CompressOnto([], ds)
  }

  // ---------------------------------------------------------------- the compressor

  /** Every delta has a key and no two share one. */
  ghost predicate Distinct<V>(ds: seq<Delta<V>>) {
    && (forall i :: 0 <= i < |ds| ==> ds[i].obj.key.Some?)
    && (forall i, j :: 0 <= i < j < |ds| ==> ds[i].obj.key != ds[j].obj.key)
  }

  method RemoveDeltasWithKey<V>(deltas: seq<Delta<V>>, removeKey: string) returns (newDeltas: seq<Delta<V>>)
    ensures newDeltas == Without(deltas, removeKey)
  {
    newDeltas := [];
    for i := 0 to |deltas|
      invariant newDeltas == Without(deltas[..i], removeKey)
    {
      assert deltas[..i + 1][..i] == deltas[..i];
      var key := deltas[i].obj.key;
      if key.Some? && key.value != removeKey {
        newDeltas := newDeltas + [deltas[i]];
      }
    }
    assert deltas[..|deltas|] == deltas;
  }

  /** Panics are returned as errors. */
  method DeltaCompressor<V>(deltas: seq<Delta<V>>) returns (r: Result<seq<Delta<V>>, Panic>)
    ensures r == Compressed(deltas)
  {
    var newDeltas: seq<Delta<V>> := [];
    var objects: map<string, DeltaType> := map[];
    for i := 0 to |deltas|
      invariant Compressed(deltas[..i]) == Ok(newDeltas)
      invariant forall k :: KindIn(newDeltas, k) == if k in objects then Some(objects[k]) else None
    {
      var d := deltas[i];
      assert deltas[..i + 1][..i] == deltas[..i];
      PrefixPanics(deltas, i + 1);
      if d.obj.key.None? {
        return Err(Unkeyable);
      }
      var key := d.obj.key.value;
      if key !in objects {
        newDeltas := newDeltas + [d];
        objects := objects[key := d.kind];
        KindsAfterAppend(deltas, i, newDeltas, d);
      } else {
        KindsWithout(newDeltas, key);
        match Combine(objects[key], d.kind) {
          case Compress(kind) =>
            objects := objects[key := kind];
            newDeltas := RemoveDeltasWithKey(newDeltas, key);
            newDeltas := newDeltas + [Delta(kind, d.obj)];
          case Drop =>
            objects := objects - {key};
            newDeltas := RemoveDeltasWithKey(newDeltas, key);
          case Invalid =>
            return Err(InvalidTransition(objects[key], d.kind));
        }
      }
    }
    assert deltas[..|deltas|] == deltas;
    r := Ok(newDeltas);
  }

  lemma KindsAfterAppend<V>(deltas: seq<Delta<V>>, i: nat, ds: seq<Delta<V>>, d: Delta<V>)
    requires ds != [] && ds[|ds| - 1] == d
    ensures forall k :: KindIn(ds, k) == if d.obj.key == Some(k) then Some(d.kind) else KindIn(ds[..|ds| - 1], k)
  {
  }

  /** A panic on a prefix is the panic of the whole list. */
  lemma {:induction false} PrefixPanics<V>(deltas: seq<Delta<V>>, n: nat)
    requires n <= |deltas|
    ensures Compressed(deltas[..n]).Err? ==> Compressed(deltas) == Compressed(deltas[..n])
    decreases |deltas|
  {
    if n < |deltas| {
      var init := deltas[..|deltas| - 1];
      PrefixPanics(init, n);
      assert init[..n] == deltas[..n];
    } else {
      assert deltas[..n] == deltas;
    }
  }

  lemma {:induction false} KindsWithout<V>(ds: seq<Delta<V>>, key: string)
    ensures forall k :: KindIn(Without(ds, key), k) == if k == key then None else KindIn(ds, k)
    decreases |ds|
  {
    if ds != [] {
      var init, last := ds[..|ds| - 1], ds[|ds| - 1];
      KindsWithout(init, key);
      if last.obj.key.Some? && last.obj.key.value != key {
        assert Without(ds, key)[..|Without(ds, key)| - 1] == Without(init, key);
      } else {
        assert Without(ds, key) == Without(init, key);
      }
    }
  }

  // ---------------------------------------------------------------- compression is a homomorphism

  /** Filtering keeps exactly the deltas of other keys. */
  lemma {:induction false} WithoutMembers<V>(ds: seq<Delta<V>>, key: string)
    requires Distinct(ds)
    ensures forall i :: 0 <= i < |Without(ds, key)| ==>
              Without(ds, key)[i] in ds && Without(ds, key)[i].obj.key != Some(key)
    decreases |ds|
  {
    if ds != [] {
      WithoutMembers(ds[..|ds| - 1], key);
      assert ds == ds[..|ds| - 1] + [ds[|ds| - 1]];
    }
  }

  lemma {:induction false} WithoutIsDistinct<V>(ds: seq<Delta<V>>, key: string)
    requires Distinct(ds)
    ensures Distinct(Without(ds, key))
    decreases |ds|
  {
    if ds != [] {
      WithoutIsDistinct(ds[..|ds| - 1], key);
      WithoutMembers(ds[..|ds| - 1], key);
    }
  }

  lemma {:induction false} KindOfMember<V>(ds: seq<Delta<V>>, key: string)
    ensures KindIn(ds, key).None? <==> forall i :: 0 <= i < |ds| ==> ds[i].obj.key != Some(key)
    ensures Distinct(ds) ==> forall i :: 0 <= i < |ds| && ds[i].obj.key == Some(key) ==> KindIn(ds, key) == Some(ds[i].kind)
    decreases |ds|
  {
    if ds != [] {
      KindOfMember(ds[..|ds| - 1], key);
    }
  }

  lemma PushKeepsDistinct<V>(ds: seq<Delta<V>>, d: Delta<V>)
    requires Distinct(ds)
    ensures Push(ds, d).Ok? ==> Distinct(Push(ds, d).value)
  {
    if d.obj.key.Some? {
      var key := d.obj.key.value;
      assert d.obj.key == Some(key);
      KindOfMember(ds, key);
      WithoutIsDistinct(ds, key);
      WithoutMembers(ds, key);
    }
  }

  lemma {:induction false} CompressedIsDistinct<V>(ds: seq<Delta<V>>)
    ensures Compressed(ds).Ok? ==> Distinct(Compressed(ds).value)
    decreases |ds|
  {
    if ds != [] {
      var init := ds[..|ds| - 1];
      CompressedIsDistinct(init);
      if Compressed(init).Ok? {
        PushKeepsDistinct(Compressed(init).value, ds[|ds| - 1]);
      }
    }
  }

  lemma FreshKey<V>(ds: seq<Delta<V>>)
    requires Distinct(ds) && ds != []
    ensures KindIn(ds[..|ds| - 1], ds[|ds| - 1].obj.key.value).None?
  {
    KindOfMember(ds[..|ds| - 1], ds[|ds| - 1].obj.key.value);
  }

  /** A list with one delta per key is left as it is. */
  lemma {:induction false} DistinctIsFixed<V>(ds: seq<Delta<V>>)
    requires Distinct(ds)
    ensures Compressed(ds) == Ok(ds)
    decreases |ds|
  {
    if ds != [] {
      var init, last := ds[..|ds| - 1], ds[|ds| - 1];
      DistinctIsFixed(init);
      FreshKey(ds);
      assert init + [last] == ds;
    }
  }

  lemma {:induction false} CompressConcat<V>(done: seq<Delta<V>>, a: seq<Delta<V>>, b: seq<Delta<V>>)
    ensures CompressOnto(done, a + b) == match CompressOnto(done, a)
                                          case Ok(ds) => CompressOnto(ds, b)
                                          case Err(p) => Err(p)
    decreases |b|
  {
    if b == [] {
      assert a + b == a;
    } else {
      assert (a + b)[..|a + b| - 1] == a + b[..|b| - 1];
      CompressConcat(done, a, b[..|b| - 1]);
    }
  }

  /** Compressing what is already queued and then the rest is compressing everything at once, so
      the queue may compress at every enqueue; in particular compressing twice changes nothing. */
  lemma CompressionIsHomomorphic<V>(a: seq<Delta<V>>, b: seq<Delta<V>>)
    requires Compressed(a).Ok?
    ensures Compressed(Compressed(a).value + b) == Compressed(a + b)
    ensures Compressed(Compressed(a).value) == Compressed(a)
  {
    var c := Compressed(a).value;
    CompressedIsDistinct(a);
    DistinctIsFixed(c);
    CompressConcat([], c, b);
    CompressConcat([], a, b);
  }

  /** What the FIFO holds when it compresses its list after every single enqueue. */
  function Queued<V>(ds: seq<Delta<V>>): Result<seq<Delta<V>>, Panic>
    decreases |ds|
  {
    if ds == [] then Ok([]) else
      match Queued(ds[..|ds| - 1])
      case Ok(held) => Compressed(held + [ds[|ds| - 1]])
      case Err(p) => Err(p)
  }

  lemma {:induction false} EnqueueingCompresses<V>(ds: seq<Delta<V>>)
    ensures Queued(ds) == Compressed(ds)
    decreases |ds|
  {
    if ds != [] {
      var init, last := ds[..|ds| - 1], ds[|ds| - 1];
      assert ds == init + [last];
      EnqueueingCompresses(init);
      if Compressed(init).Ok? {
        CompressionIsHomomorphic(init, [last]);
      }
    }
  }

  // ---------------------------------------------------------------- key by key

  datatype KeyState = Absent | Holds(kind: DeltaType) | Stuck

  function Advance(s: KeyState, kind: DeltaType): KeyState {
    match s
    case Stuck => Stuck
    case Absent => Holds(kind)
    case Holds(older) =>
      match Combine(older, kind)
      case Compress(k) => Holds(k)
      case Drop => Absent
      case Invalid => Stuck
  }

  /** What the deltas of one key alone compress to. */
  function Track<V>(ds: seq<Delta<V>>, key: string): KeyState
    decreases |ds|
  {
    if ds == [] then Absent else
      var before := Track(ds[..|ds| - 1], key);
      if ds[|ds| - 1].obj.key == Some(key) then Advance(before, ds[|ds| - 1].kind) else before
  }

  /** The list holds for each key what `Track` says. */
  ghost predicate HoldsTracked<V>(c: seq<Delta<V>>, ds: seq<Delta<V>>) {
    forall k :: Track(ds, k) == match KindIn(c, k) case Some(t) => Holds(t) case None => Absent
  }

  ghost predicate Accepted<V>(ds: seq<Delta<V>>) {
    && (forall i :: 0 <= i < |ds| ==> ds[i].obj.key.Some?)
    && (forall k :: Track(ds, k) != Stuck)
  }

  lemma PushTracks<V>(c: seq<Delta<V>>, init: seq<Delta<V>>, last: Delta<V>)
    requires HoldsTracked(c, init) && last.obj.key.Some?
    ensures Push(c, last).Ok? <==> Track(init + [last], last.obj.key.value) != Stuck
    ensures Push(c, last).Ok? ==> HoldsTracked(Push(c, last).value, init + [last])
  {
    var key := last.obj.key.value;
    assert last.obj.key == Some(key);
    KeyStep(init, last, key);
    KindsWithout(c, key);
    assert Track(init, key) == match KindIn(c, key) case Some(t) => Holds(t) case None => Absent;
    if Push(c, last).Ok? {
      var after := Push(c, last).value;
      forall k
        ensures Track(init + [last], k) == match KindIn(after, k) case Some(t) => Holds(t) case None => Absent
      {
        assert Track(init, k) == match KindIn(c, k) case Some(t) => Holds(t) case None => Absent;
      }
    }
  }

  /** The compressor accepts a list exactly when every delta has a key and the matrix accepts
      every key's own deltas; it then holds for each key what that key's deltas compress to. */
  lemma {:induction false} CompressesKeyByKey<V>(ds: seq<Delta<V>>)
    ensures Compressed(ds).Ok? <==> Accepted(ds)
    ensures Compressed(ds).Ok? ==> HoldsTracked(Compressed(ds).value, ds)
    decreases |ds|
  {
    if ds != [] {
      var init, last := ds[..|ds| - 1], ds[|ds| - 1];
      assert ds == init + [last];
      CompressesKeyByKey(init);
      StuckStays(init, last);
      if Compressed(init).Err? {
        if i :| 0 <= i < |init| && init[i].obj.key.None? {
          assert ds[i].obj.key.None?;
        } else {
          var k :| Track(init, k) == Stuck;
          assert Track(ds, k) == Stuck;
        }
      } else if last.obj.key.Some? {
        PushTracks(Compressed(init).value, init, last);
        KeyStep(init, last, last.obj.key.value);
      }
    }
  }

  lemma KeyStep<V>(init: seq<Delta<V>>, last: Delta<V>, key: string)
    requires last.obj.key == Some(key)
    ensures forall k :: Track(init + [last], k)
                == if k == key then Advance(Track(init, k), last.kind) else Track(init, k)
  {
    assert (init + [last])[..|init|] == init;
  }

  lemma StuckStays<V>(init: seq<Delta<V>>, last: Delta<V>)
    ensures forall k :: Track(init, k) == Stuck ==> Track(init + [last], k) == Stuck
  {
    assert (init + [last])[..|init|] == init;
  }

  // ---------------------------------------------------------------- what is refused

  /** The kinds of a key's deltas, oldest first. */
  function KindsOf<V>(ds: seq<Delta<V>>, key: string): seq<DeltaType>
    decreases |ds|
  {
    if ds == [] then [] else
      var init, last := ds[..|ds| - 1], ds[|ds| - 1];
      KindsOf(init, key) + if last.obj.key == Some(key) then [last.kind] else []
  }

  /** Position `i` starts anew: it is the first or comes directly after a Deleted. */
  predicate Opens(kinds: seq<DeltaType>, i: nat)
    requires i < |kinds|
  {
    i == 0 || kinds[i - 1] == Deleted
  }

  /** The object was added in the queue each time, so it was unknown before. */
  ghost predicate Unknown(kinds: seq<DeltaType>) {
    forall i :: 0 <= i < |kinds| && Opens(kinds, i) ==> kinds[i] == Added
  }

  /** Since its last deletion, or from the start, the object's deltas began with a Sync. */
  ghost predicate Resynced(kinds: seq<DeltaType>) {
    exists i :: 0 <= i < |kinds| && Opens(kinds, i) && kinds[i] == Sync && forall j :: i <= j < |kinds| ==> kinds[j] != Deleted
  }

  /** What may not follow the deltas `kinds` of an object: Added while it is there; for an object known
      before, Updated or Deleted directly after Deleted; and, for such an object, Sync after Updated or
      Added, unless the queue last learned of it by a Sync. */
  ghost predicate Refused(kinds: seq<DeltaType>, next: DeltaType) {
    && kinds != []
    && var last := kinds[|kinds| - 1];
       match next
       case Added => last != Deleted
       case Sync => last != Deleted && !Unknown(kinds) && !Resynced(kinds)
       case _ => last == Deleted && !Unknown(kinds)
  }

  /** No delta of the object may not follow those before it. */
  ghost predicate Admitted(kinds: seq<DeltaType>) {
    forall i :: 0 <= i < |kinds| ==> !Refused(kinds[..i], kinds[i])
  }

  /** What the matrix makes of the deltas of one object. */
  function Folded(kinds: seq<DeltaType>): KeyState
    decreases |kinds|
  {
    if kinds == [] then Absent else Advance(Folded(kinds[..|kinds| - 1]), kinds[|kinds| - 1])
  }

  lemma {:induction false} TrackFoldsKinds<V>(ds: seq<Delta<V>>, key: string)
    ensures Track(ds, key) == Folded(KindsOf(ds, key))
    decreases |ds|
  {
    if ds != [] {
      var before := KindsOf(ds[..|ds| - 1], key);
      TrackFoldsKinds(ds[..|ds| - 1], key);
      var kinds := KindsOf(ds, key);
      if ds[|ds| - 1].obj.key == Some(key) {
        assert kinds[..|kinds| - 1] == before;
      } else {
        assert kinds == before;
      }
    }
  }

  lemma AdmittedPrefix(kinds: seq<DeltaType>, next: DeltaType)
    ensures Admitted(kinds + [next]) <==> Admitted(kinds) && !Refused(kinds, next)
  {
    var longer := kinds + [next];
    assert longer[..|kinds|] == kinds;
    assert forall i :: 0 <= i < |kinds| ==> longer[..i] == kinds[..i];
  }

  lemma UnknownPrefix(kinds: seq<DeltaType>, next: DeltaType)
    ensures Unknown(kinds + [next]) <==> Unknown(kinds) && (Opens(kinds + [next], |kinds|) ==> next == Added)
  {
    var longer := kinds + [next];
    assert forall i :: 0 <= i < |kinds| ==> Opens(longer, i) == Opens(kinds, i);
  }

  lemma ResyncedPrefix(kinds: seq<DeltaType>, next: DeltaType)
    ensures Resynced(kinds + [next])
       <==> next != Deleted && (Resynced(kinds) || (next == Sync && Opens(kinds + [next], |kinds|)))
  {
    var longer := kinds + [next];
    assert forall i :: 0 <= i < |kinds| ==> Opens(longer, i) == Opens(kinds, i);
    if Resynced(longer) {
      var i :| 0 <= i < |longer| && Opens(longer, i) && longer[i] == Sync && forall j :: i <= j < |longer| ==> longer[j] != Deleted;
      assert longer[|kinds|] != Deleted;
      assert forall j :: i <= j < |kinds| ==> longer[j] == kinds[j];
    }
    if next != Deleted && Resynced(kinds) {
      var i :| 0 <= i < |kinds| && Opens(kinds, i) && kinds[i] == Sync && forall j :: i <= j < |kinds| ==> kinds[j] != Deleted;
      assert forall j :: i <= j < |longer| ==> longer[j] != Deleted;
    }
    if next == Sync && Opens(longer, |kinds|) {
      assert longer[|kinds|] == Sync;
    }
  }

  /** The state the matrix is in, told from the deltas themselves. */
  ghost function StateOf(kinds: seq<DeltaType>): KeyState {
    if kinds == [] then Absent
    else if kinds[|kinds| - 1] == Deleted then (if Unknown(kinds) then Absent else Holds(Deleted))
    else if Unknown(kinds) then Holds(Added)
    else if Resynced(kinds) then Holds(Sync)
    else Holds(Updated)
  }

  lemma StateAdvances(kinds: seq<DeltaType>, next: DeltaType)
    ensures Advance(StateOf(kinds), next) == if Refused(kinds, next) then Stuck else StateOf(kinds + [next])
  {
    UnknownPrefix(kinds, next);
    ResyncedPrefix(kinds, next);
  }

  lemma {:induction false} FoldedIsState(kinds: seq<DeltaType>)
    ensures Folded(kinds) == if Admitted(kinds) then StateOf(kinds) else Stuck
    decreases |kinds|
  {
    if kinds != [] {
      var init, last := kinds[..|kinds| - 1], kinds[|kinds| - 1];
      assert kinds == init + [last];
      FoldedIsState(init);
      AdmittedPrefix(init, last);
      StateAdvances(init, last);
    }
  }

  /** Every delta has a key, and none of an object's deltas may not follow those before it. */
  ghost predicate WellSequenced<V>(ds: seq<Delta<V>>) {
    && (forall i :: 0 <= i < |ds| ==> ds[i].obj.key.Some?)
    && (forall k :: Admitted(KindsOf(ds, k)))
  }

  lemma AcceptedIsSequenced<V>(ds: seq<Delta<V>>)
    ensures Accepted(ds) <==> WellSequenced(ds)
  {
    forall k
      ensures Track(ds, k) != Stuck <==> Admitted(KindsOf(ds, k))
    {
      StuckIffRefused(ds, k);
    }
    if k :| Track(ds, k) == Stuck {
      assert !Admitted(KindsOf(ds, k));
    }
    if k :| !Admitted(KindsOf(ds, k)) {
      assert Track(ds, k) == Stuck;
    }
  }

  /** The compressor panics if and only if a delta has no key, or one object's deltas, taken alone, have
      one that may not follow those before it. */
  lemma AcceptedIffSequenced<V>(ds: seq<Delta<V>>)
    ensures Compressed(ds).Ok? <==> WellSequenced(ds)
  {
    AcceptedIsSequenced(ds);
    CompressesKeyByKey(ds);
  }

  lemma StuckIffRefused<V>(ds: seq<Delta<V>>, key: string)
    ensures Track(ds, key) != Stuck <==> Admitted(KindsOf(ds, key))
  {
    TrackFoldsKinds(ds, key);
    FoldedIsState(KindsOf(ds, key));
  }

  /** A relist that reports an object whose update is still queued: the compressor panics. */
  lemma RelistAfterUpdatePanics<V>(key: string, before: V, now: V)
    ensures var update, relist := Delta(Updated, Object(Some(key), before)), Delta(Sync, Object(Some(key), now));
      Compressed([update, relist]) == Err(InvalidTransition(Updated, Sync))
  {
    var update, relist := Delta(Updated, Object(Some(key), before)), Delta(Sync, Object(Some(key), now));
    assert [update, relist][..1] == [update] && [update][..0] == [];
    assert CompressOnto([], [update][..0]) == Ok([]);
    var none: seq<Delta<V>> := [];
    assert KindIn(none, key).None? && none + [update] == [update];
    assert Push(none, update) == Ok([update]);
    assert CompressOnto(none, [update]) == Ok([update]);
    assert KindIn([update], key) == Some(Updated);
  }

  // ---------------------------------------------------------------- meaning

  /** One delta applied to the store of known objects. */
  function ApplyOne<V>(store: map<string, V>, d: Delta<V>): map<string, V> {
    match d.obj.key
    case None => store
    case Some(key) => if d.kind == Deleted then store - {key} else store[key := d.obj.body]
  }

  function Apply<V>(store: map<string, V>, ds: seq<Delta<V>>): map<string, V>
    decreases |ds|
  {
    if ds == [] then store else ApplyOne(Apply(store, ds[..|ds| - 1]), ds[|ds| - 1])
  }

  /** The position of the last delta of a key. */
  function Last<V>(ds: seq<Delta<V>>, key: string): (r: Option<nat>)
    ensures r.Some? ==> r.value < |ds| && ds[r.value].obj.key == Some(key)
    ensures r.Some? ==> forall i :: r.value < i < |ds| ==> ds[i].obj.key != Some(key)
    ensures r.None? ==> forall i :: 0 <= i < |ds| ==> ds[i].obj.key != Some(key)
    decreases |ds|
  {
    if ds == [] then None
    else if ds[|ds| - 1].obj.key == Some(key) then Some(|ds| - 1)
    else Last(ds[..|ds| - 1], key)
  }

  function First<V>(ds: seq<Delta<V>>, key: string): Option<DeltaType>
    decreases |ds|
  {
    if ds == [] then None
    else match First(ds[..|ds| - 1], key)
         case Some(t) => Some(t)
         case None => if ds[|ds| - 1].obj.key == Some(key) then Some(ds[|ds| - 1].kind) else None
  }

  /** A key ends with the outcome of its last delta, or untouched. */
  lemma {:induction false} ApplyIsLastDelta<V>(store: map<string, V>, ds: seq<Delta<V>>, key: string)
    ensures match Last(ds, key)
            case None => (key in Apply(store, ds) <==> key in store)
                      && (key in store ==> Apply(store, ds)[key] == store[key])
            case Some(i) => if ds[i].kind == Deleted then key !in Apply(store, ds)
                            else key in Apply(store, ds) && Apply(store, ds)[key] == ds[i].obj.body
    decreases |ds|
  {
    if ds != [] {
      ApplyIsLastDelta(store, ds[..|ds| - 1], key);
    }
  }

  /** What a key's compressed state says about its deltas. */
  lemma {:induction false} TrackFollowsLast<V>(ds: seq<Delta<V>>, key: string)
    requires Track(ds, key) != Stuck
    ensures Last(ds, key).None? <==> First(ds, key).None?
    ensures Last(ds, key).None? ==> Track(ds, key) == Absent
    ensures Last(ds, key).Some? && Track(ds, key) == Absent ==>
              ds[Last(ds, key).value].kind == Deleted && First(ds, key) == Some(Added)
    ensures Track(ds, key).Holds? ==>
              && Last(ds, key).Some?
              && (Track(ds, key).kind == Deleted <==> ds[Last(ds, key).value].kind == Deleted)
              && (Track(ds, key).kind == Added ==> First(ds, key) == Some(Added))
    decreases |ds|
  {
    if ds != [] {
      TrackFollowsLast(ds[..|ds| - 1], key);
    }
  }

  /** The delta carries the object of the last delta of its key. */
  ghost predicate CarriesLast<V>(ds: seq<Delta<V>>, d: Delta<V>) {
    && d.obj.key.Some?
    && Last(ds, d.obj.key.value).Some?
    && d.obj == ds[Last(ds, d.obj.key.value).value].obj
  }

  lemma CarriesLastOfLonger<V>(init: seq<Delta<V>>, last: Delta<V>, d: Delta<V>)
    requires CarriesLast(init, d) && d.obj.key != last.obj.key
    ensures CarriesLast(init + [last], d)
  {
    assert (init + [last])[..|init|] == init;
  }

  lemma {:induction false} CarriesLastObject<V>(ds: seq<Delta<V>>)
    requires Compressed(ds).Ok?
    ensures forall i :: 0 <= i < |Compressed(ds).value| ==> CarriesLast(ds, Compressed(ds).value[i])
    decreases |ds|
  {
    if ds != [] {
      var init, last := ds[..|ds| - 1], ds[|ds| - 1];
      assert ds == init + [last];
      CarriesLastObject(init);
      CompressedIsDistinct(init);
      var before, key := Compressed(init).value, last.obj.key.value;
      assert last.obj.key == Some(key);
      var rest := Kept(before, key);
      KeptOthers(before, key);
      forall i | 0 <= i < |rest|
        ensures CarriesLast(ds, rest[i])
      {
        CarriesLastOfLonger(init, last, rest[i]);
      }
    }
  }

  /** What a push leaves of a list: everything when the key is new, else the other keys. */
  function Kept<V>(ds: seq<Delta<V>>, key: string): seq<Delta<V>> {
    if KindIn(ds, key).None? then ds else Without(ds, key)
  }

  lemma KeptOthers<V>(ds: seq<Delta<V>>, key: string)
    requires Distinct(ds)
    ensures forall i :: 0 <= i < |Kept(ds, key)| ==> Kept(ds, key)[i] in ds && Kept(ds, key)[i].obj.key != Some(key)
  {
    KindOfMember(ds, key);
    WithoutMembers(ds, key);
  }

  /** The deltas stand in the order in which their keys last occurred in `ds`. */
  ghost predicate InLastOrder<V>(c: seq<Delta<V>>, ds: seq<Delta<V>>) {
    forall i, j :: 0 <= i < j < |c| ==> LastBefore(ds, c[i], c[j])
  }

  ghost predicate LastBefore<V>(ds: seq<Delta<V>>, a: Delta<V>, b: Delta<V>) {
    && a.obj.key.Some? && b.obj.key.Some?
    && Last(ds, a.obj.key.value).Some? && Last(ds, b.obj.key.value).Some?
    && Last(ds, a.obj.key.value).value < Last(ds, b.obj.key.value).value
  }

  lemma {:induction false} WithoutKeepsOrder<V>(c: seq<Delta<V>>, key: string, ds: seq<Delta<V>>)
    requires InLastOrder(c, ds) && Distinct(c)
    ensures InLastOrder(Without(c, key), ds)
    decreases |c|
  {
    if c != [] {
      var init, last := c[..|c| - 1], c[|c| - 1];
      WithoutKeepsOrder(init, key, ds);
      WithoutMembers(init, key);
      var rest := Without(init, key);
      forall i | 0 <= i < |rest|
        ensures LastBefore(ds, rest[i], last)
      {
        var k :| 0 <= k < |init| && init[k] == rest[i];
        assert LastBefore(ds, c[k], c[|c| - 1]);
      }
    }
  }

  lemma OrderOfLonger<V>(c: seq<Delta<V>>, init: seq<Delta<V>>, last: Delta<V>)
    requires InLastOrder(c, init)
    requires forall i :: 0 <= i < |c| ==> c[i].obj.key != last.obj.key
    ensures InLastOrder(c, init + [last])
  {
    assert (init + [last])[..|init|] == init;
    forall i, j | 0 <= i < j < |c|
      ensures LastBefore(init + [last], c[i], c[j])
    {
      assert LastBefore(init, c[i], c[j]);
    }
  }

  /** The output keeps the order in which the keys last occurred. */
  lemma {:induction false} OrderedByLast<V>(ds: seq<Delta<V>>)
    requires Compressed(ds).Ok?
    ensures InLastOrder(Compressed(ds).value, ds)
    decreases |ds|
  {
    if ds != [] {
      var init, last := ds[..|ds| - 1], ds[|ds| - 1];
      assert ds == init + [last];
      OrderedByLast(init);
      CompressedIsDistinct(init);
      CarriesLastObject(init);
      var before, key := Compressed(init).value, last.obj.key.value;
      assert last.obj.key == Some(key);
      WithoutKeepsOrder(before, key, init);
      var rest := Kept(before, key);
      KeptOthers(before, key);
      OrderOfLonger(rest, init, last);
      forall i, d | 0 <= i < |rest| && CarriesLast(ds, d) && d.obj.key == Some(key)
        ensures LastBefore(ds, rest[i], d)
      {
        CarriesLastOfLonger(init, last, rest[i]);
      }
      CarriesLastObject(ds);
    }
  }

  /** A stored object all of whose deltas were dropped. */
  ghost predicate Forgotten<V>(ds: seq<Delta<V>>, store: map<string, V>, k: string) {
    k in store && Last(ds, k).Some? && Track(ds, k) == Absent
  }

  /** Applying the compressed list to the store of known objects gives the same store as applying
      every delta, if and only if no stored object had all its deltas dropped. */
  lemma CompressionPreservesMeaningIff<V>(ds: seq<Delta<V>>, store: map<string, V>)
    requires Compressed(ds).Ok?
    ensures Apply(store, Compressed(ds).value) == Apply(store, ds) <==> forall k :: !Forgotten(ds, store, k)
  {
    forall k
      ensures SameAt(Apply(store, Compressed(ds).value), Apply(store, ds), k) <==> !Forgotten(ds, store, k)
    {
      SameForKey(ds, store, k);
    }
    SameMaps(Apply(store, Compressed(ds).value), Apply(store, ds));
  }

  lemma SameMaps<V>(a: map<string, V>, b: map<string, V>)
    ensures a == b <==> forall k :: SameAt(a, b, k)
  {
    if forall k :: SameAt(a, b, k) {
      assert forall k :: (k in a <==> k in b) by {
        forall k ensures k in a <==> k in b { assert SameAt(a, b, k); }
      }
      assert forall k :: k in a ==> a[k] == b[k] by {
        forall k | k in a ensures a[k] == b[k] { assert SameAt(a, b, k); }
      }
    }
  }

  /** In particular, when the objects whose first delta says Added were not known before. */
  lemma CompressionPreservesMeaning<V>(ds: seq<Delta<V>>, store: map<string, V>)
    requires Compressed(ds).Ok?
    requires forall k :: First(ds, k) == Some(Added) ==> k !in store
    ensures Apply(store, Compressed(ds).value) == Apply(store, ds)
  {
    CompressesKeyByKey(ds);
    forall k
      ensures !Forgotten(ds, store, k)
    {
      TrackFollowsLast(ds, k);
    }
    CompressionPreservesMeaningIff(ds, store);
  }

  ghost predicate SameAt<V>(a: map<string, V>, b: map<string, V>, k: string) {
    (k in a <==> k in b) && (k in a && k in b ==> a[k] == b[k])
  }

  lemma SameForKey<V>(ds: seq<Delta<V>>, store: map<string, V>, k: string)
    requires Compressed(ds).Ok?
    ensures SameAt(Apply(store, Compressed(ds).value), Apply(store, ds), k) <==> !Forgotten(ds, store, k)
  {
    var c := Compressed(ds).value;
    CompressesKeyByKey(ds);
    TrackFollowsLast(ds, k);
    ApplyIsLastDelta(store, ds, k);
    ApplyIsLastDelta(store, c, k);
    CompressedIsDistinct(ds);
    KindOfMember(c, k);
    CarriesLastObject(ds);
    if Last(c, k).Some? {
      assert CarriesLast(ds, c[Last(c, k).value]);
    }
  }

  // ---------------------------------------------------------------- net change

  /** Added hits only absent keys, Updated and Deleted only present ones, and nothing is resynced. */
  ghost predicate WellFormed<V>(present: set<string>, ds: seq<Delta<V>>)
    decreases |ds|
  {
    ds == [] ||
    (var init, last := ds[..|ds| - 1], ds[|ds| - 1];
     && WellFormed(present, init)
     && last.obj.key.Some?
     && match last.kind
        case Added => last.obj.key.value !in PresentAfter(present, init)
        case Updated => last.obj.key.value in PresentAfter(present, init)
        case Deleted => last.obj.key.value in PresentAfter(present, init)
        case Sync => false)
  }

  ghost function PresentAfter<V>(present: set<string>, ds: seq<Delta<V>>): set<string>
    decreases |ds|
  {
    if ds == [] then present else
      var before, last := PresentAfter(present, ds[..|ds| - 1]), ds[|ds| - 1];
      if last.obj.key.None? then before
      else if last.kind == Deleted then before - {last.obj.key.value}
      else before + {last.obj.key.value}
  }

  /** The net change of a key over a stream. */
  ghost function NetChange(before: bool, after: bool, touched: bool): KeyState {
    if !before && after then Holds(Added)
    else if before && !after then Holds(Deleted)
    else if before && after && touched then Holds(Updated)
    else Absent
  }

  lemma {:induction false} TrackIsNetChange<V>(present: set<string>, ds: seq<Delta<V>>, key: string)
    requires WellFormed(present, ds)
    ensures Track(ds, key) == NetChange(key in present, key in PresentAfter(present, ds), Last(ds, key).Some?)
    ensures Last(ds, key).None? ==> (key in present <==> key in PresentAfter(present, ds))
    decreases |ds|
  {
    if ds != [] {
      TrackIsNetChange(present, ds[..|ds| - 1], key);
    }
  }

  lemma {:induction false} WellFormedIsKeyed<V>(present: set<string>, ds: seq<Delta<V>>)
    requires WellFormed(present, ds)
    ensures forall i :: 0 <= i < |ds| ==> ds[i].obj.key.Some?
    decreases |ds|
  {
    if ds != [] {
      WellFormedIsKeyed(present, ds[..|ds| - 1]);
    }
  }

  /** A well-formed stream is never refused, and each key compresses to its net change. */
  lemma NetChangeTheorem<V>(present: set<string>, ds: seq<Delta<V>>)
    requires WellFormed(present, ds)
    ensures Compressed(ds).Ok?
    ensures forall k :: KindIn(Compressed(ds).value, k)
                == match NetChange(k in present, k in PresentAfter(present, ds), Last(ds, k).Some?)
                   case Holds(t) => Some(t)
                   case _ => None
  {
    WellFormedIsKeyed(present, ds);
    forall k
      ensures Track(ds, k) == NetChange(k in present, k in PresentAfter(present, ds), Last(ds, k).Some?)
    {
      TrackIsNetChange(present, ds, k);
    }
    CompressesKeyByKey(ds);
  }

  // ---------------------------------------------------------------- the queue

  class Queue<V(==)> {
    var knownObjects: map<string, V>

    method UpdateKnownObjects(delta: Delta<V>)
      modifies this
      ensures knownObjects == ApplyOne(old(knownObjects), delta)
    {
      if delta.obj.key.Some? {
        var key := delta.obj.key.value;
        match delta.kind {
          case Added | Updated => knownObjects := knownObjects[key := delta.obj.body];
          case Sync => knownObjects := knownObjects[key := delta.obj.body];
          case Deleted => knownObjects := knownObjects - {key};
        }
      }
    }

    /** Processes one object's queued deltas; `accepts` says whether the handler takes a delta.
        The store already has the delta at which processing stops. */
    method Pop(deltas: seq<Delta<V>>, accepts: Delta<V> -> bool) returns (processed: nat)
      modifies this
      ensures processed <= |deltas| && knownObjects == Apply(old(knownObjects), deltas[..processed])
      ensures forall i :: 0 <= i < processed - 1 ==> accepts(deltas[i])
      ensures processed < |deltas| ==> processed > 0 && !accepts(deltas[processed - 1])
    {
      processed := 0;
      while processed < |deltas|
        invariant processed <= |deltas| && knownObjects == Apply(old(knownObjects), deltas[..processed])
        invariant forall i :: 0 <= i < processed ==> accepts(deltas[i])
      {
        UpdateKnownObjects(deltas[processed]);
        assert deltas[..processed + 1][..processed] == deltas[..processed];
        processed := processed + 1;
        if !accepts(deltas[processed - 1]) {
          return;
        }
      }
    }
  }

  /** The deltas queued under one key compress to at most one, so a handler that fails never
      keeps a delta from the store. */
  lemma OneKeyCompressesToOne<V>(ds: seq<Delta<V>>, key: string)
    requires forall d :: d in ds ==> d.obj.key == Some(key)
    requires Compressed(ds).Ok?
    ensures |Compressed(ds).value| <= 1
  {
    CompressedIsDistinct(ds);
    CarriesLastObject(ds);
    var c := Compressed(ds).value;
    forall i | 0 <= i < |c|
      ensures c[i].obj.key == Some(key)
    {
      assert CarriesLast(ds, c[i]);
      assert ds[Last(ds, c[i].obj.key.value).value] in ds;
    }
    if |c| > 1 {
      KeysDiffer(c, 0, 1);
      assert false;
    }
  }

  lemma KeysDiffer<V>(ds: seq<Delta<V>>, i: nat, j: nat)
    requires Distinct(ds) && i < j < |ds|
    ensures ds[i].obj.key != ds[j].obj.key
  {
  }

}
