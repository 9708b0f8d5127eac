/** Recovering an incomplete certificate chain: issuers are fetched one by one until
    the leaf verifies, at most AIA_MAX_HOPS of them. */
module AiaRecovery {
  import opened Frames

  /** The bytes of a buffer, one character each. */
  type Bytes = string

  const AIA_MAX_HOPS: nat := 4

  datatype Error = Success | InvalidData | Memory

  datatype Fetched = Fetched(got: bool, der: Option<Bytes>)
  datatype Built = Built(verified: bool, bundle: Option<Bytes>)

  /** The code behind this module: chain verification, the issuer named by a
      certificate, the n-th answer of the network, the verified path as text. */
  datatype Oracle = Oracle(
    verify: seq<Bytes> -> bool,
    issuerUrl: Bytes -> Option<string>,
    fetch: (nat, string) -> Fetched,
    build: seq<Bytes> -> Built)

  // ----- specification -----

  predicate HttpUrl(url: string) {
    "http://" <= url || "https://" <= url
  }

  predicate Usable(f: Fetched) {
    f.got && f.der.Some? && f.der.value != ""
  }

  function Last(leaf: Bytes, issuers: seq<Bytes>): Bytes {
    if issuers == [] then leaf else issuers[|issuers| - 1]
  }

  /** The address the certificate's issuer is asked for at, if there is one. */
  function NextUrl(o: Oracle, current: Bytes): Option<string> {
    var url := o.issuerUrl(current);
    if url.Some? && HttpUrl(url.value) then url else None
  }

  /** The first k issuers, if every one of the k fetches succeeds. `asked` counts the
      fetches made before. */
  function Chain(o: Oracle, leaf: Bytes, asked: nat, k: nat): Option<seq<Bytes>> {
    if k == 0 then Some([])
    else
      var before := Chain(o, leaf, asked, k - 1);
      if before.None? then None
      else
        var url := NextUrl(o, Last(leaf, before.value));
        if url.None? then None
        else
          var f := o.fetch(asked + k - 1, url.value);
          if Usable(f) then Some(before.value + [f.der.value]) else None
  }

  /** The address of the k-th fetch, if the walk can get there. */
  function UrlAt(o: Oracle, leaf: Bytes, asked: nat, k: nat): Option<string> {
    var c := Chain(o, leaf, asked, k);
    if c.None? then None else NextUrl(o, Last(leaf, c.value))
  }

  predicate Completes(o: Oracle, leaf: Bytes, asked: nat, k: nat) {
    k <= AIA_MAX_HOPS && Chain(o, leaf, asked, k).Some? && o.verify(Chain(o, leaf, asked, k).value)
  }

  ghost predicate Least(o: Oracle, leaf: Bytes, asked: nat, k: nat) {
    Completes(o, leaf, asked, k) && forall j :: 0 <= j < k ==> !Completes(o, leaf, asked, j)
  }

  /** The k-th chain extends every shorter one. */
  lemma {:induction false} ChainPrefix(o: Oracle, leaf: Bytes, asked: nat, j: nat, k: nat)
    requires j <= k && Chain(o, leaf, asked, k).Some?
    ensures Chain(o, leaf, asked, j).Some?
    ensures |Chain(o, leaf, asked, k).value| == k
    ensures Chain(o, leaf, asked, j).value == Chain(o, leaf, asked, k).value[..j]
    decreases k
  {
    if k > 0 {
      ChainPrefix(o, leaf, asked, if j == k then k - 1 else j, k - 1);
    }
  }

  /** `der` is what the n-th fetch brought from the http address that `current` names
      for its issuer. */
  ghost predicate Linked(o: Oracle, current: Bytes, n: nat, der: Bytes) {
    der != "" && exists url :: o.issuerUrl(current) == Some(url) && WebAddress(url) &&
                               o.fetch(n, url) == Fetched(true, Some(der))
  }

  predicate WebAddress(url: string) {
    (|url| >= 7 && url[..7] == "http://") || (|url| >= 8 && url[..8] == "https://")
  }

  function Previous(leaf: Bytes, issuers: seq<Bytes>, j: nat): Bytes
    requires j <= |issuers|
  {
    if j == 0 then leaf else issuers[j - 1]
  }

  ghost predicate AllLinked(o: Oracle, leaf: Bytes, asked: nat, issuers: seq<Bytes>) {
    issuers == [] ||
    var n := |issuers| - 1;
    AllLinked(o, leaf, asked, issuers[..n]) && Linked(o, Previous(leaf, issuers, n), asked + n, issuers[n])
  }

  /** A chain is exactly a sequence of issuers each of which was fetched for the
      certificate before it, the first for the leaf. */
  lemma {:induction false} ChainIff(o: Oracle, leaf: Bytes, asked: nat, issuers: seq<Bytes>)
    ensures Chain(o, leaf, asked, |issuers|) == Some(issuers) <==> AllLinked(o, leaf, asked, issuers)
  {
    if issuers != [] {
      var n := |issuers| - 1;
      ChainIff(o, leaf, asked, issuers[..n]);
      ChainGrows(o, leaf, asked, issuers);
    }
  }

  lemma ChainGrows(o: Oracle, leaf: Bytes, asked: nat, issuers: seq<Bytes>)
    requires issuers != []
    ensures var n := |issuers| - 1;
            Chain(o, leaf, asked, n + 1) == Some(issuers) <==>
            Chain(o, leaf, asked, n) == Some(issuers[..n]) &&
            Linked(o, Previous(leaf, issuers, n), asked + n, issuers[n])
  {
    var n := |issuers| - 1;
    assert issuers == issuers[..n] + [issuers[n]];
    LinkIs(o, Previous(leaf, issuers, n), asked + n, issuers[n]);
    if Chain(o, leaf, asked, n + 1) == Some(issuers) {
      ChainPrefix(o, leaf, asked, n, n + 1);
    }
    if Chain(o, leaf, asked, n) == Some(issuers[..n]) {
      assert Last(leaf, issuers[..n]) == Previous(leaf, issuers, n);
    }
  }

  lemma LinkIs(o: Oracle, current: Bytes, n: nat, der: Bytes)
    ensures Linked(o, current, n, der) <==>
            var url := NextUrl(o, current);
            url.Some? && Usable(o.fetch(n, url.value)) && o.fetch(n, url.value).der.value == der
  {
    var url := o.issuerUrl(current);
    if url.Some? {
      assert HttpUrl(url.value) <==> WebAddress(url.value);
    }
  }

  // ----- memory -----

  datatype Slot = Live(bytes: Bytes) | Freed

  /** Allocated buffers, addressed by their number, and the fetches made so far. */
  class World {
    var slots: seq<Slot>
    var calls: seq<string>

    constructor ()
      ensures slots == [] && calls == []
    {
      slots, calls := [], [];
    }

    method Allocate(bytes: Bytes) returns (p: nat)
      modifies this`slots
      ensures p == |old(slots)| && slots == old(slots) + [Live(bytes)]
    {
      p := |slots|;
      slots := slots + [Live(bytes)];
    }

    /** Freeing a buffer twice is not allowed. */
    method Free(p: nat)
      requires p < |slots| && slots[p].Live?
      modifies this`slots
      ensures slots == old(slots)[p := Freed]
    {
      slots := slots[p := Freed];
    }

    method FreeIfAny(p: Option<nat>)
      requires p.Some? ==> p.value < |slots| && slots[p.value].Live?
      modifies this`slots
      ensures slots == if p.Some? then old(slots)[p.value := Freed] else old(slots)
    {
      if p.Some? {
        Free(p.value);
      }
    }

    /** Asks the network: the answer's buffer, if any, belongs to the caller. */
    method Fetch(o: Oracle, url: string) returns (got: bool, der: Option<nat>)
      modifies this
      ensures calls == old(calls) + [url]
      ensures var f := o.fetch(|old(calls)|, url);
              && got == f.got && (der.Some? <==> f.der.Some?)
              && (der.None? ==> slots == old(slots))
              && (der.Some? ==> der.value == |old(slots)| && slots == old(slots) + [Live(f.der.value)])
    {
      var f := o.fetch(|calls|, url);
      calls := calls + [url];
      got, der := f.got, None;
      if f.der.Some? {
        var p := Allocate(f.der.value);
        der := Some(p);
      }
    }

    /** Verifies once more, this time keeping the path as text. */
    method Build(o: Oracle, issuers: seq<Bytes>) returns (verified: bool, bundle: Option<nat>)
      modifies this`slots
      ensures var b := o.build(issuers);
              && verified == b.verified && (bundle.Some? <==> b.bundle.Some?)
              && (bundle.None? ==> slots == old(slots))
              && (bundle.Some? ==> bundle.value == |old(slots)| && slots == old(slots) + [Live(b.bundle.value)])
    {
      var b := o.build(issuers);
      verified, bundle := b.verified, None;
      if b.bundle.Some? {
        var p := Allocate(b.bundle.value);
        bundle := Some(p);
      }
    }
  }

  class Cell<T> {
    var value: T
    constructor (v: T) ensures value == v { value := v; }
  }

  /** Only the buffers `ids` are live among those numbered `base` and up, and each is
      listed once. */
  ghost predicate Owns(slots: seq<Slot>, base: nat, ids: seq<nat>) {
    && base <= |slots|
    && (forall i :: 0 <= i < |ids| ==> base <= ids[i] < |slots| && slots[ids[i]].Live?)
    && (forall i, j :: 0 <= i < j < |ids| ==> ids[i] != ids[j])
    && (forall p :: base <= p < |slots| && p !in ids ==> slots[p].Freed?)
  }

  /** The first n buffers are as they were. */
  ghost predicate Kept(before: seq<Slot>, after: seq<Slot>, n: nat) {
    n <= |before| && n <= |after| && forall p :: 0 <= p < n ==> after[p] == before[p]
  }

  function Listed(p: Option<nat>): (ids: seq<nat>)
    ensures p.Some? ==> |ids| == 1 && ids[0] == p.value
  {
    if p.Some? then [p.value] else []
  }

  /** What the buffers hold; reading one that was freed is not allowed. */
  function Contents(slots: seq<Slot>, ids: seq<nat>): (r: seq<Bytes>)
    requires forall i :: 0 <= i < |ids| ==> ids[i] < |slots| && slots[ids[i]].Live?
    ensures |r| == |ids| && forall i :: 0 <= i < |ids| ==> r[i] == slots[ids[i]].bytes
  {
    seq(|ids|, i requires 0 <= i < |ids| => slots[ids[i]].bytes)
  }

  /** `aia_free_all`: what is left are the buffers in `kept`, untouched. */
  method FreeAll(w: World, found: array<nat>, count: nat, ghost base: nat, ghost kept: seq<nat>)
    requires count <= found.Length && Owns(w.slots, base, found[..count] + kept)
    modifies w`slots
    ensures Owns(w.slots, base, kept) && |w.slots| == |old(w.slots)| && Kept(old(w.slots), w.slots, base)
    ensures forall j :: 0 <= j < |kept| ==> kept[j] < |w.slots| && w.slots[kept[j]] == old(w.slots)[kept[j]]
  {
    OwnedAreLive(w.slots, base, found[..count], kept);
    assert found[0..count] == found[..count];
    for i := 0 to count
      modifies w`slots
      invariant |w.slots| == |old(w.slots)| && Kept(old(w.slots), w.slots, base)
      invariant Owns(w.slots, base, found[i..count] + kept)
      invariant forall j :: 0 <= j < |kept| ==> kept[j] < |w.slots| && w.slots[kept[j]] == old(w.slots)[kept[j]]
    {
      var ids := found[i..count] + kept;
      assert ids[0] == found[i] && ids[1..] == found[i + 1..count] + kept;
      ghost var slots := w.slots;
      w.Free(found[i]);
      FreedHead(slots, base, ids);
      assert forall j :: 0 <= j < |kept| ==> ids[|ids| - |kept| + j] == kept[j];
    }
    assert found[count..count] + kept == kept;
  }

  lemma OwnedAreLive(slots: seq<Slot>, base: nat, ids: seq<nat>, kept: seq<nat>)
    requires Owns(slots, base, ids + kept)
    ensures forall j :: 0 <= j < |kept| ==> kept[j] < |slots|
  {
    forall j | 0 <= j < |kept| ensures kept[j] < |slots| {
      assert (ids + kept)[|ids| + j] == kept[j];
    }
  }

  lemma FreedHead(slots: seq<Slot>, base: nat, ids: seq<nat>)
    requires Owns(slots, base, ids) && |ids| > 0
    ensures Owns(slots[ids[0] := Freed], base, ids[1..])
    ensures forall p :: p in ids[1..] ==> p != ids[0]
    ensures forall p :: p in ids <==> p == ids[0] || p in ids[1..]
  {
    var t, rest := slots[ids[0] := Freed], ids[1..];
    assert forall i :: 0 <= i < |rest| ==> rest[i] == ids[i + 1];
  }

  /** The fetches made are those of the first k hops. */
  ghost predicate Asked(o: Oracle, leaf: Bytes, before: seq<string>, after: seq<string>, k: nat) {
    && |after| == |before| + k && before <= after
    && forall j :: 0 <= j < k ==> UrlAt(o, leaf, |before|, j) == Some(after[|before| + j])
  }

  /** The walk ended where it could not go on. */
  ghost predicate GaveUp(o: Oracle, leaf: Bytes, before: seq<string>, after: seq<string>) {
    && |before| <= |after| <= |before| + AIA_MAX_HOPS
    && Asked(o, leaf, before, after, |after| - |before|)
    && (|after| - |before| == AIA_MAX_HOPS || UrlAt(o, leaf, |before|, |after| - |before|).None?)
  }

  predicate GoodBundle(b: Built) {
    b.verified && b.bundle.Some? && b.bundle.value != ""
  }

  /** The result for a leaf that verifies with `issuers`. */
  ghost predicate Delivered(o: Oracle, issuers: seq<Bytes>, slots: seq<Slot>, pem: Option<nat>, error: Error) {
    var b := o.build(issuers);
    if issuers == [] then error == Success && pem == None
    else if GoodBundle(b) then
      error == Success && pem.Some? && pem.value < |slots| && slots[pem.value] == Live(b.bundle.value)
    else error == Memory && pem == None
  }

  /** What recovery does for a leaf: it completes exactly when a chain of at most
      AIA_MAX_HOPS fetched issuers verifies, uses the least such number k, makes
      exactly k fetches and delivers the path through exactly those issuers. */
  ghost predicate Recovered(o: Oracle, leaf: Bytes, before: seq<string>, after: seq<string>,
                            slots: seq<Slot>, pem: Option<nat>, error: Error) {
    && (forall k: nat :: Least(o, leaf, |before|, k) ==>
         Asked(o, leaf, before, after, k) && Delivered(o, Chain(o, leaf, |before|, k).value, slots, pem, error))
    && ((forall k: nat :: !Completes(o, leaf, |before|, k)) ==>
         GaveUp(o, leaf, before, after) && error == InvalidData && pem == None)
  }

  lemma LeastIsUnique(o: Oracle, leaf: Bytes, n: nat, j: nat, k: nat)
    requires Least(o, leaf, n, j) && Least(o, leaf, n, k)
    ensures j == k
  {
  }

  lemma {:induction false} LeastExists(o: Oracle, leaf: Bytes, n: nat, k: nat) returns (least: nat)
    requires Completes(o, leaf, n, k)
    ensures Least(o, leaf, n, least) && least <= k
  {
    if j: nat :| j < k && Completes(o, leaf, n, j) {
      least := LeastExists(o, leaf, n, j);
    } else {
      least := k;
    }
  }

  /** Recovery reports an incomplete chain exactly when no chain of fetched issuers
      verifies, and makes no fetch at all exactly when the leaf verifies alone or its
      issuer cannot be asked for. */
  lemma RecoveredIff(o: Oracle, leaf: Bytes, before: seq<string>, after: seq<string>,
                     slots: seq<Slot>, pem: Option<nat>, error: Error)
    requires Recovered(o, leaf, before, after, slots, pem, error)
    ensures error == InvalidData <==> forall k: nat :: !Completes(o, leaf, |before|, k)
    ensures after == before <==> o.verify([]) || NextUrl(o, leaf).None?
  {
    assert Completes(o, leaf, |before|, 0) <==> o.verify([]);
    assert UrlAt(o, leaf, |before|, 0) == NextUrl(o, leaf);
    if k: nat :| Completes(o, leaf, |before|, k) {
      var least := LeastExists(o, leaf, |before|, k);
      assert Least(o, leaf, |before|, least);
      if least == 0 {
        assert Least(o, leaf, |before|, 0);
      }
    }
  }

  /** In plain terms: recovery reports an incomplete chain exactly when no chain of at
      most four issuers, each fetched for the certificate before it, verifies; and it
      never makes more than four fetches. */
  lemma IncompleteIff(o: Oracle, leaf: Bytes, before: seq<string>, after: seq<string>,
                      slots: seq<Slot>, pem: Option<nat>, error: Error)
    requires Recovered(o, leaf, before, after, slots, pem, error)
    ensures error == InvalidData <==>
            forall issuers :: |issuers| <= 4 && AllLinked(o, leaf, |before|, issuers) ==> !o.verify(issuers)
    ensures |before| <= |after| <= |before| + 4
  {
    var n := |before|;
    RecoveredIff(o, leaf, before, after, slots, pem, error);
    if k: nat :| Completes(o, leaf, n, k) {
      var issuers := Chain(o, leaf, n, k).value;
      ChainPrefix(o, leaf, n, k, k);
      ChainIff(o, leaf, n, issuers);
      var least := LeastExists(o, leaf, n, k);
      assert Least(o, leaf, n, least);
    }
    forall issuers | |issuers| <= 4 && AllLinked(o, leaf, n, issuers) && o.verify(issuers)
      ensures Completes(o, leaf, n, |issuers|)
    {
      ChainIff(o, leaf, n, issuers);
    }
  }

  /** `aia_recover_with_store`; a null leaf, callback or output is None, false or null. */
  method Recover(w: World, o: Oracle, leaf: Option<Bytes>, hasFetch: bool,
                 pem: Cell?<Option<nat>>, pemLen: Cell?<nat>) returns (error: Error)
    modifies w, pem, pemLen
    ensures leaf.None? || leaf.value == "" || !hasFetch || pem == null ==>
              && error == InvalidData && unchanged(w)
              && (pem != null ==> unchanged(pem)) && (pemLen != null ==> unchanged(pemLen))
    ensures leaf.Some? && leaf.value != "" && hasFetch && pem != null ==>
              && Recovered(o, leaf.value, old(w.calls), w.calls, w.slots, pem.value, error)
              && Kept(old(w.slots), w.slots, |old(w.slots)|)
              && Owns(w.slots, |old(w.slots)|, Listed(pem.value))
              && (pemLen != null ==> pemLen.value == Length(w.slots, pem.value))
  {
    if leaf.None? || leaf.value == "" || !hasFetch || pem == null {
      return InvalidData;
    }
    pem.value := None;
    if pemLen != null {
      pemLen.value := 0;
    }
    var bundle;
    error, bundle := RecoverLeaf(w, o, leaf.value);
    pem.value := bundle;
    if pemLen != null {
      pemLen.value := Length(w.slots, bundle);
    }
  }

  function Length(slots: seq<Slot>, p: Option<nat>): nat
    requires p.Some? ==> p.value < |slots| && slots[p.value].Live?
  {
    if p.Some? then |slots[p.value].bytes| else 0
  }

  method RecoverLeaf(w: World, o: Oracle, leaf: Bytes) returns (error: Error, bundle: Option<nat>)
    modifies w
    ensures Recovered(o, leaf, old(w.calls), w.calls, w.slots, bundle, error)
    ensures Kept(old(w.slots), w.slots, |old(w.slots)|)
    ensures Owns(w.slots, |old(w.slots)|, Listed(bundle))
  {
    ghost var base := |w.slots|;
    var found := new nat[AIA_MAX_HOPS];
    var count, complete := Walk(w, o, leaf, found);
    assert found[..count] + [] == found[..count];
    if !complete {
      FreeAll(w, found, count, base, []);
      return InvalidData, None;
    }
    assert Least(o, leaf, |old(w.calls)|, count);
    forall k: nat | Least(o, leaf, |old(w.calls)|, k) ensures k == count {
      LeastIsUnique(o, leaf, |old(w.calls)|, count, k);
    }
    error, bundle := Finish(w, o, found, count, base);
  }

  /** A complete chain: the path as text, unless the leaf needed no issuer. */
  method Finish(w: World, o: Oracle, found: array<nat>, count: nat, ghost base: nat)
    returns (error: Error, bundle: Option<nat>)
    requires count <= found.Length && Owns(w.slots, base, found[..count])
    modifies w`slots
    ensures Delivered(o, old(Contents(w.slots, found[..count])), w.slots, bundle, error)
    ensures Owns(w.slots, base, Listed(bundle)) && Kept(old(w.slots), w.slots, base)
  {
    if count == 0 {
      return Success, None;
    }
    var verified;
    verified, bundle := BuildBundle(w, o, found, count, base);
    if !verified || bundle == None || w.slots[bundle.value].bytes == "" {
      w.FreeIfAny(bundle);
      return Memory, None;
    }
    return Success, bundle;
  }

  /** Builds the bundle and lets go of the issuers. */
  method BuildBundle(w: World, o: Oracle, found: array<nat>, count: nat, ghost base: nat)
    returns (verified: bool, bundle: Option<nat>)
    requires count <= found.Length && Owns(w.slots, base, found[..count])
    modifies w`slots
    ensures var b := o.build(old(Contents(w.slots, found[..count])));
            && verified == b.verified && (bundle.Some? <==> b.bundle.Some?)
            && (bundle.Some? ==> bundle.value < |w.slots| && w.slots[bundle.value] == Live(b.bundle.value))
    ensures Owns(w.slots, base, Listed(bundle)) && Kept(old(w.slots), w.slots, base)
  {
    ghost var before, ids := w.slots, found[..count];
    verified, bundle := w.Build(o, Contents(w.slots, found[..count]));
    OwnedAfter(before, w.slots, base, ids, bundle);
    FreeAll(w, found, count, base, Listed(bundle));
  }

  /** The walk stands after hop k: `issuers` were found, each after one fetch, and no
      shorter chain verifies. */
  ghost predicate Walked(o: Oracle, leaf: Bytes, before: seq<string>, after: seq<string>, issuers: seq<Bytes>) {
    && Chain(o, leaf, |before|, |issuers|) == Some(issuers)
    && Asked(o, leaf, before, after, |issuers|)
    && forall k :: 0 <= k < |issuers| ==> !Completes(o, leaf, |before|, k)
  }

  /** The walk is over and no chain verifies. */
  ghost predicate Failed(o: Oracle, leaf: Bytes, before: seq<string>, after: seq<string>) {
    GaveUp(o, leaf, before, after) && forall k: nat :: !Completes(o, leaf, |before|, k)
  }

  /** One hop from `current`: the issuer's certificate, when it is named and fetched. */
  ghost predicate Hopped(o: Oracle, current: Bytes, before: seq<string>, after: seq<string>, der: Option<Bytes>) {
    var url := NextUrl(o, current);
    if url.None? then der == None && after == before
    else
      var f := o.fetch(|before|, url.value);
      after == before + [url.value] && der == if Usable(f) then f.der else None
  }

  lemma HopExtends(o: Oracle, leaf: Bytes, before: seq<string>, mid: seq<string>, after: seq<string>,
                   issuers: seq<Bytes>, der: Option<Bytes>)
    requires Walked(o, leaf, before, mid, issuers) && !o.verify(issuers)
    requires |issuers| < AIA_MAX_HOPS && Hopped(o, Last(leaf, issuers), mid, after, der)
    ensures der.Some? ==> Walked(o, leaf, before, after, issuers + [der.value])
    ensures der.None? ==> Failed(o, leaf, before, after)
  {
    if der.None? {
      HopFails(o, leaf, before, mid, after, issuers);
    }
  }

  lemma HopFails(o: Oracle, leaf: Bytes, before: seq<string>, mid: seq<string>, after: seq<string>, issuers: seq<Bytes>)
    requires Walked(o, leaf, before, mid, issuers) && !o.verify(issuers)
    requires |issuers| < AIA_MAX_HOPS && Hopped(o, Last(leaf, issuers), mid, after, None)
    ensures Failed(o, leaf, before, after)
  {
    var n, k := |before|, |issuers|;
    assert Chain(o, leaf, n, k + 1).None?;
    forall j: nat ensures !Completes(o, leaf, n, j) {
      if j > k && Chain(o, leaf, n, j).Some? {
        ChainPrefix(o, leaf, n, k + 1, j);
        assert false;
      }
    }
  }

  lemma HopsSpent(o: Oracle, leaf: Bytes, before: seq<string>, after: seq<string>, issuers: seq<Bytes>)
    requires Walked(o, leaf, before, after, issuers) && !o.verify(issuers) && |issuers| == AIA_MAX_HOPS
    ensures Failed(o, leaf, before, after)
  {
  }

  /** The hop loop. */
  method Walk(w: World, o: Oracle, leaf: Bytes, found: array<nat>) returns (count: nat, complete: bool)
    requires found.Length == AIA_MAX_HOPS
    modifies w, found
    ensures count <= AIA_MAX_HOPS && Owns(w.slots, |old(w.slots)|, found[..count])
    ensures Kept(old(w.slots), w.slots, |old(w.slots)|)
    ensures complete ==>
              var issuers := Contents(w.slots, found[..count]);
              Walked(o, leaf, old(w.calls), w.calls, issuers) && o.verify(issuers)
    ensures !complete ==> Failed(o, leaf, old(w.calls), w.calls)
  {
    ghost var base := |w.slots|;
    var hop := 0;
    count, complete := 0, false;
    while hop <= AIA_MAX_HOPS
      invariant count == hop <= AIA_MAX_HOPS && !complete && base <= |w.slots|
      invariant Kept(old(w.slots), w.slots, base) && Owns(w.slots, base, found[..count])
      invariant Walked(o, leaf, old(w.calls), w.calls, Contents(w.slots, found[..count]))
    {
      if o.verify(Contents(w.slots, found[..count])) {
        complete := true;
        break;
      }
      if hop == AIA_MAX_HOPS {
        HopsSpent(o, leaf, old(w.calls), w.calls, Contents(w.slots, found[..count]));
        break;
      }
      var extended := Extend(w, o, leaf, found, count, base, old(w.calls));
      if !extended {
        break;
      }
      count := count + 1;
      hop := hop + 1;
    }
  }

  /** The part of the loop that adds the next issuer. */
  method Extend(w: World, o: Oracle, leaf: Bytes, found: array<nat>, count: nat,
                ghost base: nat, ghost before: seq<string>) returns (extended: bool)
    requires count < found.Length == AIA_MAX_HOPS && Owns(w.slots, base, found[..count])
    requires Walked(o, leaf, before, w.calls, Contents(w.slots, found[..count]))
    requires !o.verify(Contents(w.slots, found[..count]))
    modifies w, found
    ensures |old(w.slots)| <= |w.slots| && Kept(old(w.slots), w.slots, base)
    ensures !extended ==> Owns(w.slots, base, found[..count]) && Failed(o, leaf, before, w.calls)
    ensures extended ==>
              Owns(w.slots, base, found[..count + 1]) &&
              Walked(o, leaf, before, w.calls, Contents(w.slots, found[..count + 1]))
  {
    ghost var slots, calls, ids := w.slots, w.calls, found[..count];
    var current := if count == 0 then leaf else w.slots[found[count - 1]].bytes;
    var der := Hop(w, o, current);
    HopExtends(o, leaf, before, calls, w.calls, Contents(slots, ids), Held(w.slots, der));
    OwnedAfter(slots, w.slots, base, ids, der);
    extended := der != None;
    if extended {
      Put(found, count, der.value);
    }
  }

  method Put(found: array<nat>, count: nat, p: nat)
    requires count < found.Length
    modifies found
    ensures found[..count + 1] == old(found[..count]) + [p]
  {
    found[count] := p;
    assert found[..count] == old(found[..count]);
  }

  /** What was owned stays owned when of all that was allocated since only `more` is
      kept. */
  lemma OwnedAfter(before: seq<Slot>, after: seq<Slot>, base: nat, ids: seq<nat>, more: Option<nat>)
    requires Owns(before, base, ids) && Kept(before, after, |before|)
    requires Owns(after, |before|, Listed(more))
    ensures Owns(after, base, ids + Listed(more))
    ensures Contents(after, ids) == Contents(before, ids)
    ensures more.None? ==> ids + Listed(more) == ids
    ensures more.Some? ==> Contents(after, ids + [more.value]) == Contents(before, ids) + [after[more.value].bytes]
  {
    KeptContents(before, after, ids);
    if more.Some? {
      OwnedBoth(before, after, base, ids, more.value);
      assert (ids + [more.value])[..|ids|] == ids;
    } else {
      assert ids + [] == ids;
    }
  }

  lemma OwnedBoth(before: seq<Slot>, after: seq<Slot>, base: nat, ids: seq<nat>, p: nat)
    requires Owns(before, base, ids) && Kept(before, after, |before|) && Owns(after, |before|, [p])
    ensures Owns(after, base, ids + [p])
  {
    var all := ids + [p];
    assert [p][0] == p;
    forall q | base <= q < |after| && q !in all ensures after[q].Freed? {
      assert q !in ids && q !in [p];
    }
  }

  /** The bytes of a buffer that may be missing. */
  function Held(slots: seq<Slot>, p: Option<nat>): Option<Bytes>
    requires p.Some? ==> p.value < |slots| && slots[p.value].Live?
  {
    if p.Some? then Some(slots[p.value].bytes) else None
  }

  /** Buffers hold the same after others were allocated. */
  lemma {:induction false} KeptContents(before: seq<Slot>, after: seq<Slot>, ids: seq<nat>)
    requires Kept(before, after, |before|)
    requires forall i :: 0 <= i < |ids| ==> ids[i] < |before| && before[ids[i]].Live?
    ensures forall i :: 0 <= i < |ids| ==> after[ids[i]] == before[ids[i]]
    ensures Contents(after, ids) == Contents(before, ids)
  {
    assert Contents(after, ids) == Contents(before, ids);
  }

  /** One hop: the issuer of `current` is asked for and its buffer handed over. */
  method Hop(w: World, o: Oracle, current: Bytes) returns (der: Option<nat>)
    modifies w
    ensures Kept(old(w.slots), w.slots, |old(w.slots)|)
    ensures Owns(w.slots, |old(w.slots)|, Listed(der))
    ensures Hopped(o, current, old(w.calls), w.calls, Held(w.slots, der))
  {
    der := None;
    var named := o.issuerUrl(current);
    if named.None? {
      return;
    }
    var url := w.Allocate(named.value);
    if !("http://" <= named.value) && !("https://" <= named.value) {
      w.Free(url);
      return;
    }
    var answered, answer := w.Fetch(o, w.slots[url].bytes);
    w.Free(url);
    if !answered || answer == None || w.slots[answer.value].bytes == "" {
      w.FreeIfAny(answer);
      return;
    }
    return answer;
  }
}
