/** The tile registry of MapGenerator (spriteRenderStatusDict) and the
    protocol that drives it, as an event-driven state machine. Unity's
    `async void` methods run synchronously up to their first `await`; what
    happens after the `await` is a later, separate event. So:
      - `Tick` is one frame's Update: the seed gate, then the discovery loop,
        where each GenerateAdditionalMapTile runs its synchronous prefix
        (presence check, neighbour lookup, composite, Pending reservation);
      - `StartGame` is OnStartGame and the synchronous prefix of
        GenerateInitialMapTile;
      - `Complete` is the resumption of one outstanding request, in any order,
        with the returned texture or None for any exception. */
module Registry {
  import opened Optional
  import opened Tiles
  import opened Pixels
  import opened Composite
  import opened Resolver

  type Reg = map<Key, Status>

  /** isGameTileMapInitialzied; None stands for the dictionary before
      Initialize has created it. */
  function IsGameTileMapInitialized(dict: Option<Reg>): (b: bool)
    ensures b <==> dict.Some? && HasStatus(dict.value, SeedKey, Rendered)
    ensures dict.Some? && SeedKey in dict.value && dict.value[SeedKey] == Pending ==> !b
  {
    if dict.None? then false
    else if SeedKey !in dict.value then false
    else if dict.value[SeedKey] == Pending then false
    else true
  }

  /** An outstanding asynchronous request: the seed generation, or an
      inpainting call carrying what it sends to the server. */
  datatype Job =
    | SeedJob(prompt: string)
    | InpaintJob(source: Key, target: Key, direction: Direction, mask: Image)

  /** The registry key a request will settle. */
  function JobKey(j: Job): Key
  {
    match j
    case SeedJob(_) => SeedKey
    case InpaintJob(_, t, _, _) => t
  }

  /** reg: the registry; tiles: the sprite textures on screen, by index;
      jobs: the requests in flight; size: the width and height of every tile
      texture (images are square and the size of the seed tile). */
  datatype State = State(reg: Reg, tiles: map<Key, Image>, jobs: seq<Job>, size: nat)

  /** Some request for key k is in flight. */
  predicate InFlight(s: State, k: Key)
  {
    exists i :: 0 <= i < |s.jobs| && JobKey(s.jobs[i]) == k
  }

  /** Every tile texture has the common size. */
  predicate TilesFit(s: State)
  {
    forall k :: k in s.tiles ==> IsSquare(s.tiles[k], s.size)
  }

  /** The registry invariant:
      - a key has a sprite exactly when it is Rendered;
      - every request in flight is for a Pending key;
      - no two requests in flight are for the same key;
      - a Pending key other than the seed always has its request in flight. */
  ghost predicate Inv(s: State)
  {
    && TilesFit(s)
    && (forall k :: k in s.tiles <==> HasStatus(s.reg, k, Rendered))
    && (forall i :: 0 <= i < |s.jobs| ==> HasStatus(s.reg, JobKey(s.jobs[i]), Pending))
    && (forall i, j :: 0 <= i < j < |s.jobs| ==> JobKey(s.jobs[i]) != JobKey(s.jobs[j]))
    && (forall k :: HasStatus(s.reg, k, Pending) && k != SeedKey ==> InFlight(s, k))
  }

  /** A child found under the map container at start-up: its name read as a
      tile index, and its sprite texture. */
  datatype Child = Child(key: Key, image: Image)

  /** The loop of Initialize: `Dictionary.Add` of each child as Rendered.
      Add throws on a repeated name, which ends Start there. */
  function LoadChildren(reg: Reg, tiles: map<Key, Image>, cs: seq<Child>): (res: (Reg, map<Key, Image>))
    requires forall k :: k in tiles <==> HasStatus(reg, k, Rendered)
    requires forall k :: k in reg ==> reg[k] == Rendered
    ensures forall k :: k in res.1 <==> HasStatus(res.0, k, Rendered)
    ensures forall k :: k in res.0 ==> res.0[k] == Rendered
    ensures forall k :: k in res.0 ==> k in reg || exists i :: 0 <= i < |cs| && cs[i].key == k
    ensures forall k :: k in tiles ==> k in res.1 && res.1[k] == tiles[k]
    decreases |cs|
  {
    if cs == [] then (reg, tiles)
    else if cs[0].key in reg then (reg, tiles)
    else
      var c := cs[0];
      var reg' := reg[c.key := Rendered];
      var tiles' := tiles[c.key := c.image];
      assert forall k :: k in tiles' <==> HasStatus(reg', k, Rendered) by {
        forall k
          ensures k in tiles' <==> HasStatus(reg', k, Rendered)
        {
          if k != c.key {
            assert k in tiles' <==> k in tiles;
            assert HasStatus(reg', k, Rendered) <==> HasStatus(reg, k, Rendered);
          }
        }
      }
      var res := LoadChildren(reg', tiles', cs[1..]);
      assert forall i :: 1 <= i < |cs| ==> cs[i] == cs[1..][i - 1];
      forall k | k in tiles
        ensures k != c.key && tiles'[k] == tiles[k]
      {
        assert HasStatus(reg, k, Rendered);
      }
      res
  }

  /** Initialize: a fresh registry holding every pre-existing child as
      Rendered, nothing in flight. */
  function Initialize(children: seq<Child>, size: nat): (s: State)
    requires forall i :: 0 <= i < |children| ==> IsSquare(children[i].image, size)
    ensures Inv(s)
    ensures s.jobs == [] && s.size == size
    ensures forall k :: k in s.reg ==> s.reg[k] == Rendered && exists i :: 0 <= i < |children| && children[i].key == k
    ensures DistinctKeys(children) ==>
              forall i :: 0 <= i < |children| ==> HasStatus(s.reg, children[i].key, Rendered) && s.tiles[children[i].key] == children[i].image
  {
    var res := LoadChildren(map[], map[], children);
    var s := State(res.0, res.1, [], size);
    assert DistinctKeys(children) ==>
             forall i :: 0 <= i < |children| ==> children[i].key in res.1 && res.1[children[i].key] == children[i].image by {
      if DistinctKeys(children) {
        LoadsDistinctChildren(map[], map[], children);
      }
    }
    assert TilesFit(s) by {
      forall k | k in s.tiles
        ensures IsSquare(s.tiles[k], size)
      {
        TileFromSomeChild(map[], map[], children, k);
      }
    }
    s
  }

  /** No two children share a name. */
  predicate DistinctKeys(cs: seq<Child>)
  {
    forall i, j :: 0 <= i < j < |cs| ==> cs[i].key != cs[j].key
  }

  /** No child's name is registered yet. */
  predicate Unregistered(cs: seq<Child>, reg: Reg)
  {
    forall i :: 0 <= i < |cs| ==> cs[i].key !in reg
  }

  /** With no name repeated and none already registered, every child is
      loaded with its own texture. */
  lemma {:induction false} LoadsDistinctChildren(reg: Reg, tiles: map<Key, Image>, cs: seq<Child>)
    requires forall k :: k in tiles <==> HasStatus(reg, k, Rendered)
    requires forall k :: k in reg ==> reg[k] == Rendered
    requires DistinctKeys(cs) && Unregistered(cs, reg)
    ensures var res := LoadChildren(reg, tiles, cs);
            forall i :: 0 <= i < |cs| ==> cs[i].key in res.1 && res.1[cs[i].key] == cs[i].image
    decreases |cs|
  {
    if cs != [] {
      var c := cs[0];
      var reg' := reg[c.key := Rendered];
      var tiles' := tiles[c.key := c.image];
      var rest := cs[1..];
      assert forall k :: k in tiles' <==> HasStatus(reg', k, Rendered);
      assert DistinctKeys(rest) by {
        forall i, j | 0 <= i < j < |rest|
          ensures rest[i].key != rest[j].key
        {
          assert rest[i] == cs[i + 1] && rest[j] == cs[j + 1];
        }
      }
      assert Unregistered(rest, reg') by {
        forall j | 0 <= j < |rest|
          ensures rest[j].key !in reg'
        {
          assert rest[j] == cs[j + 1];
          assert cs[0].key != cs[j + 1].key;
        }
      }
      LoadsDistinctChildren(reg', tiles', rest);
      var res := LoadChildren(reg, tiles, cs);
      assert res == LoadChildren(reg', tiles', rest);
      forall i | 0 <= i < |cs|
        ensures cs[i].key in res.1 && res.1[cs[i].key] == cs[i].image
      {
        if i > 0 {
          assert cs[i] == rest[i - 1];
        }
      }
    }
  }

  lemma {:induction false} TileFromSomeChild(reg: Reg, tiles: map<Key, Image>, cs: seq<Child>, k: Key)
    requires forall k :: k in tiles <==> HasStatus(reg, k, Rendered)
    requires forall k :: k in reg ==> reg[k] == Rendered
    requires k in LoadChildren(reg, tiles, cs).1
    ensures (k in tiles && LoadChildren(reg, tiles, cs).1[k] == tiles[k])
            || exists i :: 0 <= i < |cs| && LoadChildren(reg, tiles, cs).1[k] == cs[i].image
    decreases |cs|
  {
    if cs != [] && cs[0].key !in reg {
      TileFromSomeChild(reg[cs[0].key := Rendered], tiles[cs[0].key := cs[0].image], cs[1..], k);
      if exists i :: 0 <= i < |cs[1..]| && LoadChildren(reg, tiles, cs).1[k] == cs[1..][i].image {
        var i :| 0 <= i < |cs[1..]| && LoadChildren(reg, tiles, cs).1[k] == cs[1..][i].image;
        assert cs[1..][i] == cs[i + 1];
      }
    }
  }

  /** The eight tile indices around the viewer, one per direction (the
      float geometry that rounds the viewer's position to them is not
      modelled). */
  datatype Targets = Targets(up: Key, down: Key, left: Key, right: Key,
                             topLeft: Key, topRight: Key, bottomLeft: Key, bottomRight: Key)

  /** `directionTileIndex[direction]`. */
  function TargetOf(ts: Targets, d: Direction): Key
  {
    match d
    case Up => ts.up
    case Down => ts.down
    case Left => ts.left
    case Right => ts.right
    case TopLeft => ts.topLeft
    case TopRight => ts.topRight
    case BottomLeft => ts.bottomLeft
    case BottomRight => ts.bottomRight
  }

  /** The neighbour textures for the keys the resolver returned, or None when
      a lookup of a tile object (a neighbour or the seed) fails; that throws
      inside CreateInpaintSourceTexture and its catch returns null. */
  function NeighbourImages(s: State, keys: seq<Key>): (r: Option<seq<Neighbour>>)
    requires TilesFit(s)
    ensures r.Some? ==> |r.value| == |keys| && AllSquare(r.value, s.size)
                        && forall i :: 0 <= i < |keys| ==> keys[i] in s.tiles && r.value[i] == Neighbour(s.tiles[keys[i]], keys[i])
    ensures r.None? <==> SeedKey !in s.tiles || exists i :: 0 <= i < |keys| && keys[i] !in s.tiles
  {
    if SeedKey !in s.tiles || exists i :: 0 <= i < |keys| && keys[i] !in s.tiles then None
    else Some(seq(|keys|, i requires 0 <= i < |keys| => Neighbour(s.tiles[keys[i]], keys[i])))
  }

  /** CreateInpaintSourceTexture(_, target, _): the mask image and inferred
      direction, or None for a null texture. */
  function SourceTexture(s: State, target: Key): (r: Option<(Image, Direction)>)
    requires TilesFit(s)
    ensures r.Some? ==> IsSquare(r.value.0, s.size)
  {
    match NeighbourImages(s, RenderedNeighbours(s.reg, target))
    case None => None
    case Some(nbrs) => CreateInpaintSource(nbrs, target, s.size)
  }

  /** The synchronous prefix of GenerateAdditionalMapTile: return if the key
      is present; return if the composite is null; otherwise reserve the key
      as Pending and issue the inpainting request. There is no `await`
      between the presence check and the reservation. */
  function GenerateAdditionalMapTile(s: State, current: Key, target: Key): (r: State)
    requires Inv(s)
    ensures Inv(r)
    ensures r.size == s.size && r.tiles == s.tiles
    ensures target in s.reg ==> r == s
    ensures AnyPendingNeighbour(s.reg, target) ==> r == s
    ensures (forall d :: IsEdge(d) ==> !HasStatus(s.reg, Behind(target, d), Rendered)) ==> r == s
    ensures r != s ==>
              && target !in s.reg
              && r.reg == s.reg[target := Pending]
              && |r.jobs| == |s.jobs| + 1 && r.jobs[..|s.jobs|] == s.jobs
              && r.jobs[|s.jobs|].InpaintJob?
              && r.jobs[|s.jobs|].source == current && r.jobs[|s.jobs|].target == target
              && IsSquare(r.jobs[|s.jobs|].mask, s.size)
    ensures SourceTexture(s, target).None? ==> r == s
    ensures target !in s.reg && SourceTexture(s, target).Some? ==>
              var texture := SourceTexture(s, target).value;
              r.jobs == s.jobs + [InpaintJob(current, target, texture.1, texture.0)]
  {
    if target in s.reg then s
    else
      match SourceTexture(s, target)
      case None => s
      case Some(texture) =>
        var job := InpaintJob(current, target, texture.1, texture.0);
        var r := s.(reg := s.reg[target := Pending], jobs := s.jobs + [job]);
        assert r != s by {
          assert r.reg != s.reg by { assert target in r.reg; }
        }
        ReserveKeepsInv(s, job);
        r
  }

  /** Adding a Pending reservation together with its request keeps the
      invariant, provided the key was absent. */
  lemma ReserveKeepsInv(s: State, job: Job)
    requires Inv(s)
    requires JobKey(job) !in s.reg
    ensures Inv(s.(reg := s.reg[JobKey(job) := Pending], jobs := s.jobs + [job]))
  {
    var k := JobKey(job);
    var r := s.(reg := s.reg[k := Pending], jobs := s.jobs + [job]);
    forall i | 0 <= i < |s.jobs|
      ensures JobKey(s.jobs[i]) != k
    {
      assert HasStatus(s.reg, JobKey(s.jobs[i]), Pending);
    }
    forall k' | HasStatus(r.reg, k', Pending) && k' != SeedKey
      ensures InFlight(r, k')
    {
      if k' == k {
        assert JobKey(r.jobs[|s.jobs|]) == k;
      } else {
        assert InFlight(s, k');
        var i :| 0 <= i < |s.jobs| && JobKey(s.jobs[i]) == k';
        assert r.jobs[i] == s.jobs[i];
      }
    }
    forall k' | k' in r.tiles
      ensures HasStatus(r.reg, k', Rendered)
    {
      assert HasStatus(s.reg, k', Rendered);
    }
  }

  /** r is s with some keys reserved and their inpainting requests, issued
      with `current` as source, appended; nothing already present changes. */
  predicate Extends(s: State, r: State, current: Key)
  {
    && r.size == s.size && r.tiles == s.tiles
    && (forall k :: k in s.reg ==> k in r.reg && r.reg[k] == s.reg[k])
    && |s.jobs| <= |r.jobs| && r.jobs[..|s.jobs|] == s.jobs
    && (forall j :: |s.jobs| <= j < |r.jobs| ==>
          r.jobs[j].InpaintJob? && r.jobs[j].source == current && JobKey(r.jobs[j]) !in s.reg)
  }

  lemma ExtendsTransitive(s: State, m: State, r: State, current: Key)
    requires Extends(s, m, current) && Extends(m, r, current)
    ensures Extends(s, r, current)
  {
    assert r.jobs[..|s.jobs|] == r.jobs[..|m.jobs|][..|s.jobs|];
    forall j | |s.jobs| <= j < |r.jobs|
      ensures r.jobs[j].InpaintJob? && r.jobs[j].source == current && JobKey(r.jobs[j]) !in s.reg
    {
      if j < |m.jobs| {
        assert r.jobs[j] == r.jobs[..|m.jobs|][j];
      }
    }
  }

  /** One iteration of the discovery loop: the presence check in
      CheckAdditionalMapTile, then GenerateAdditionalMapTile. */
  function TryExtend(s: State, current: Key, k: Key): (r: State)
    requires Inv(s)
    ensures Inv(r) && Extends(s, r, current)
    ensures forall k' :: k' in r.reg && k' !in s.reg ==> k' == k && r.reg[k'] == Pending
  {
    if k !in s.reg then GenerateAdditionalMapTile(s, current, k) else s
  }

  /** The discovery loop from iteration i on: `(ExtendDirection)i` for
      i = 0 .. 7, and GenerateAdditionalMapTile for every target index not yet
      in the registry. Each call's synchronous prefix completes before the
      next iteration starts, so a reservation made for one direction is
      visible to the later ones. */
  function CheckAdditionalMapTile(s: State, current: Key, ts: Targets, i: nat): (r: State)
    requires i <= 8 && Inv(s)
    ensures Inv(r) && Extends(s, r, current)
    ensures forall k :: k in r.reg && k !in s.reg ==>
              r.reg[k] == Pending && exists d :: Ordinal(d) >= i && TargetOf(ts, d) == k
    decreases 8 - i
  {
    if i == 8 then s
    else
      var d := FromOrdinal(i);
      var s' := TryExtend(s, current, TargetOf(ts, d));
      var r := CheckAdditionalMapTile(s', current, ts, i + 1);
      ExtendsTransitive(s, s', r, current);
      r
  }

  /** MapGenerator.Update: nothing happens until the seed tile is Rendered;
      then one pass of the discovery loop. */
  function Update(s: State, current: Key, ts: Targets): (r: State)
    requires Inv(s)
    ensures Inv(r)
    ensures !IsGameTileMapInitialized(Some(s.reg)) ==> r == s
    ensures forall k :: k in s.reg ==> k in r.reg && r.reg[k] == s.reg[k]
    ensures forall k :: k in r.reg && k !in s.reg ==> r.reg[k] == Pending && exists d :: TargetOf(ts, d) == k
  {
    var seedId := SeedKey;
    if seedId !in s.reg || s.reg[seedId] == Pending then s
    else CheckAdditionalMapTile(s, current, ts, 0)
  }

  /** OnStartGame followed by the synchronous prefix of
      GenerateInitialMapTile: an empty prompt does nothing; otherwise
      `Dictionary.Add(seed, Pending)` throws when the seed key already exists
      (the catch only logs), and else the seed request is issued. */
  function StartGame(s: State, prompt: string): (r: State)
    requires Inv(s)
    ensures Inv(r)
    ensures prompt == [] || SeedKey in s.reg ==> r == s
    ensures prompt != [] && SeedKey !in s.reg ==>
              r.reg == s.reg[SeedKey := Pending] && r.jobs == s.jobs + [SeedJob(prompt)] && r.tiles == s.tiles
  {
    if prompt == [] then s
    else if SeedKey in s.reg then s
    else
      ReserveKeepsInv(s, SeedJob(prompt));
      s.(reg := s.reg[SeedKey := Pending], jobs := s.jobs + [SeedJob(prompt)])
  }

  /** The later half of a request, resumed with the texture the server
      returned or None for any exception (remote error, null texture, disk
      error). Success places the sprite and marks the key Rendered. An
      inpainting failure removes the key; a seed failure is only logged, so
      the seed stays Pending. */
  function Complete(s: State, i: nat, result: Option<Image>): (r: State)
    requires Inv(s)
    requires result.Some? ==> IsSquare(result.value, s.size)
    ensures Inv(r) && r.size == s.size
    ensures i >= |s.jobs| ==> r == s
    ensures i < |s.jobs| ==>
              var k := JobKey(s.jobs[i]);
              && r.jobs == s.jobs[..i] + s.jobs[i + 1..]
              && !InFlight(r, k)
              && (forall k' :: k' != k ==> (k' in r.reg <==> k' in s.reg) && (k' in r.reg ==> r.reg[k'] == s.reg[k']))
              && (result.Some? ==> HasStatus(r.reg, k, Rendered) && r.tiles[k] == result.value)
              && (result.None? && s.jobs[i].InpaintJob? ==> k !in r.reg)
              && (result.None? && s.jobs[i].SeedJob? ==> r.reg == s.reg)
  {
    if i >= |s.jobs| then s
    else
      var job := s.jobs[i];
      var k := JobKey(job);
      var rest := s.jobs[..i] + s.jobs[i + 1..];
      var r :=
        match result
        case Some(img) => s.(reg := s.reg[k := Rendered], tiles := s.tiles[k := img], jobs := rest)
        case None =>
          if job.SeedJob? then s.(jobs := rest)
          else s.(reg := s.reg - {k}, jobs := rest);
      CompleteKeepsInv(s, i, r);
      r
  }

  /** Settling request i (Rendered with a texture, removed, or left Pending
      for the seed) and dropping it from the in-flight list keeps the
      invariant. */
  lemma CompleteKeepsInv(s: State, i: nat, r: State)
    requires Inv(s) && i < |s.jobs|
    requires r.jobs == s.jobs[..i] + s.jobs[i + 1..] && r.size == s.size
    requires var k := JobKey(s.jobs[i]);
             (forall k' :: k' != k ==> (k' in r.reg <==> k' in s.reg) && (k' in r.reg ==> r.reg[k'] == s.reg[k']))
             && (forall k' :: k' != k ==> (k' in r.tiles <==> k' in s.tiles) && (k' in r.tiles ==> r.tiles[k'] == s.tiles[k']))
             && ((HasStatus(r.reg, k, Rendered) && k in r.tiles && IsSquare(r.tiles[k], s.size))
                 || (k !in r.reg && k !in r.tiles)
                 || (k == SeedKey && r.reg == s.reg && r.tiles == s.tiles))
    ensures Inv(r)
    ensures !InFlight(r, JobKey(s.jobs[i]))
  {
    var k := JobKey(s.jobs[i]);
    assert HasStatus(s.reg, k, Pending);
    assert k !in s.tiles;
    forall j | 0 <= j < |r.jobs|
      ensures r.jobs[j] == s.jobs[if j < i then j else j + 1]
    {
    }
    forall j | 0 <= j < |r.jobs|
      ensures JobKey(r.jobs[j]) != k && HasStatus(r.reg, JobKey(r.jobs[j]), Pending)
    {
      var j' := if j < i then j else j + 1;
      assert JobKey(s.jobs[j']) != JobKey(s.jobs[i]);
    }
    forall k' | HasStatus(r.reg, k', Pending) && k' != SeedKey
      ensures InFlight(r, k')
    {
      assert k' != k;
      assert InFlight(s, k');
      var j :| 0 <= j < |s.jobs| && JobKey(s.jobs[j]) == k';
      assert j != i;
      assert r.jobs[if j < i then j else j - 1] == s.jobs[j];
    }
    forall k' | k' in r.tiles
      ensures HasStatus(r.reg, k', Rendered)
    {
      if k' != k {
        assert HasStatus(s.reg, k', Rendered);
      }
    }
    forall k' | HasStatus(r.reg, k', Rendered)
      ensures k' in r.tiles
    {
      if k' != k {
        assert HasStatus(s.reg, k', Rendered);
      }
    }
  }

  /** One thing that can happen to the map: a frame, the start button, or the
      resumption of one outstanding request. */
  datatype Event =
    | Tick(current: Key, targets: Targets)
    | Start(prompt: string)
    | Done(job: nat, result: Option<Image>)

  /** Returned textures are square and the size of the seed tile. */
  predicate Admissible(size: nat, e: Event)
  {
    e.Done? && e.result.Some? ==> IsSquare(e.result.value, size)
  }

  function Step(s: State, e: Event): (r: State)
    requires Inv(s) && Admissible(s.size, e)
    ensures Inv(r) && r.size == s.size
  {
    match e
    case Tick(current, ts) => Update(s, current, ts)
    case Start(prompt) => StartGame(s, prompt)
    case Done(i, result) => Complete(s, i, result)
  }

  /** The state after a sequence of events. */
  function Run(s: State, es: seq<Event>): (r: State)
    requires Inv(s)
    requires forall i :: 0 <= i < |es| ==> Admissible(s.size, es[i])
    ensures Inv(r) && r.size == s.size
    decreases |es|
  {
    if es == [] then s else Run(Step(s, es[0]), es[1..])
  }

  /** A Rendered tile stays Rendered, with the same texture, whatever happens. */
  lemma RenderedIsFinal(s: State, e: Event, k: Key)
    requires Inv(s) && Admissible(s.size, e)
    requires HasStatus(s.reg, k, Rendered)
    ensures HasStatus(Step(s, e).reg, k, Rendered)
    ensures k in s.tiles && Step(s, e).tiles[k] == s.tiles[k]
  {
    if e.Done? && e.job < |s.jobs| {
      assert HasStatus(s.reg, JobKey(s.jobs[e.job]), Pending);
    }
  }

  /** The only transitions of a present key are its own request settling:
      Pending to Rendered on success, Pending to absent on an inpainting
      failure. No event removes or changes a key otherwise. */
  lemma ChangesOnlyBySettling(s: State, e: Event, k: Key)
    requires Inv(s) && Admissible(s.size, e)
    requires k in s.reg
    requires var r := Step(s, e); k !in r.reg || r.reg[k] != s.reg[k]
    ensures e.Done? && e.job < |s.jobs| && JobKey(s.jobs[e.job]) == k
    ensures s.reg[k] == Pending
    ensures var r := Step(s, e);
            (k in r.reg && r.reg[k] == Rendered && e.result.Some?)
            || (k !in r.reg && e.result.None? && s.jobs[e.job].InpaintJob?)
  {
  }

  /** A key that appears is Pending and has its request in flight. */
  lemma NewKeysAreRequested(s: State, e: Event, k: Key)
    requires Inv(s) && Admissible(s.size, e)
    requires k !in s.reg && k in Step(s, e).reg
    ensures Step(s, e).reg[k] == Pending && InFlight(Step(s, e), k)
  {
    var r := Step(s, e);
    match e
    case Tick(_, _) =>
      if k != SeedKey {
        assert HasStatus(r.reg, k, Pending);
      }
    case Start(prompt) =>
      assert JobKey(r.jobs[|s.jobs|]) == k;
    case Done(i, _) =>
  }

  /** However often the loop passes over a key that is waiting for its
      image, no second request for it is issued. */
  lemma NoDuplicateRequest(s: State, current: Key, ts: Targets, k: Key)
    requires Inv(s) && InFlight(s, k)
    ensures var r := Update(s, current, ts);
            forall j :: |s.jobs| <= j < |r.jobs| ==> JobKey(r.jobs[j]) != k
  {
    var i :| 0 <= i < |s.jobs| && JobKey(s.jobs[i]) == k;
    assert k in s.reg;
  }

  /** Starting a second game never issues a second seed request. */
  lemma StartIsIdempotent(s: State, p: string, q: string)
    requires Inv(s)
    ensures StartGame(StartGame(s, p), q) == StartGame(s, p) || StartGame(s, p) == s
  {
  }

  /** A seed whose request failed leaves the map stuck: the seed stays
      Pending with no request, the gate stays closed, and no key is ever
      added again, whatever events follow. */
  lemma {:induction false} FailedSeedStallsMap(s: State, es: seq<Event>)
    requires Inv(s)
    requires forall i :: 0 <= i < |es| ==> Admissible(s.size, es[i])
    requires HasStatus(s.reg, SeedKey, Pending) && !InFlight(s, SeedKey)
    ensures var r := Run(s, es);
            HasStatus(r.reg, SeedKey, Pending) && !InFlight(r, SeedKey)
            && !IsGameTileMapInitialized(Some(r.reg))
            && r.reg.Keys <= s.reg.Keys
    decreases |es|
  {
    if es != [] {
      var m := Step(s, es[0]);
      SeedStaysStuck(s, es[0]);
      FailedSeedStallsMap(m, es[1..]);
    }
  }

  lemma SeedStaysStuck(s: State, e: Event)
    requires Inv(s) && Admissible(s.size, e)
    requires HasStatus(s.reg, SeedKey, Pending) && !InFlight(s, SeedKey)
    ensures var r := Step(s, e);
            HasStatus(r.reg, SeedKey, Pending) && !InFlight(r, SeedKey)
            && r.reg.Keys <= s.reg.Keys
  {
    if e.Done? && e.job < |s.jobs| {
      var r := Step(s, e);
      var i := e.job;
      assert JobKey(s.jobs[i]) != SeedKey;
    }
  }

  /** The seed request's failure is what produces the stuck state. */
  lemma SeedFailureLeavesSeedPending(s: State, i: nat)
    requires Inv(s) && i < |s.jobs| && s.jobs[i].SeedJob?
    ensures var r := Complete(s, i, None);
            HasStatus(r.reg, SeedKey, Pending) && !InFlight(r, SeedKey)
  {
  }

  /** The eight tiles around c: `c + Unit(d)` for every direction d. */
  function Around(c: Key): (ts: Targets)
    ensures forall d :: TargetOf(ts, d) == (c.0 + Unit(d).0, c.1 + Unit(d).1)
  {
    Targets((c.0, c.1 + 1), (c.0, c.1 - 1), (c.0 - 1, c.1), (c.0 + 1, c.1),
            (c.0 - 1, c.1 + 1), (c.0 + 1, c.1 + 1), (c.0 - 1, c.1 - 1), (c.0 + 1, c.1 - 1))
  }

  /** An absent target whose source texture exists is reserved, with a
      request carrying the texture's direction. */
  lemma ReservesWithSourceDirection(s: State, current: Key, t: Key, d: Direction)
    requires Inv(s) && t !in s.reg
    requires SourceTexture(s, t).Some? && SourceTexture(s, t).value.1 == d
    ensures var r := TryExtend(s, current, t);
            r.reg == s.reg[t := Pending]
            && |r.jobs| == |s.jobs| + 1 && r.jobs[..|s.jobs|] == s.jobs
            && r.jobs[|s.jobs|].InpaintJob? && r.jobs[|s.jobs|].target == t && r.jobs[|s.jobs|].direction == d
  {
    var r := TryExtend(s, current, t);
    assert r == GenerateAdditionalMapTile(s, current, t);
    assert r.jobs == s.jobs + [r.jobs[|s.jobs|]];
  }

  /** Looking up present tiles succeeds, in order. */
  lemma ImagesOfPresentTiles(s: State, keys: seq<Key>)
    requires TilesFit(s) && SeedKey in s.tiles
    requires forall i :: 0 <= i < |keys| ==> keys[i] in s.tiles
    ensures NeighbourImages(s, keys).Some?
  {
  }

  /** With one Rendered orthogonal neighbour, behind t in direction d, the
      source texture exists and its direction is d. */
  lemma LoneNeighbourSource(s: State, t: Key, d: Direction)
    requires TilesFit(s) && IsEdge(d) && SeedKey in s.tiles
    requires HasStatus(s.reg, Behind(t, d), Rendered) && Behind(t, d) in s.tiles
    requires forall e :: IsEdge(e) && e != d ==> Behind(t, e) !in s.reg
    ensures SourceTexture(s, t).Some? && SourceTexture(s, t).value.1 == d
  {
    var b := Behind(t, d);
    assert RenderedNeighbours(s.reg, t) == [b] by {
      OneRenderedNeighbour(s.reg, t, d);
    }
    var nbrs := [Neighbour(s.tiles[b], b)];
    assert NeighbourImages(s, [b]) == Some(nbrs) by {
      var keys := [b];
      ImagesOfPresentTiles(s, keys);
      var ni := NeighbourImages(s, keys);
      assert keys[0] == b;
      assert |ni.value| == 1 && ni.value[0] == nbrs[0];
      assert ni.value == nbrs;
    }
    assert SourceTexture(s, t) == CreateInpaintSource(nbrs, t, s.size);
    LoneNeighbourDirection(nbrs, t, s.size, d);
  }

  /** A tile whose only present orthogonal neighbour is the Rendered tile
      behind it in direction d is reserved, with a request for direction d
      extending that neighbour. */
  lemma ExtendsFromLoneNeighbour(s: State, current: Key, t: Key, d: Direction)
    requires Inv(s) && IsEdge(d) && t !in s.reg && SeedKey in s.tiles
    requires HasStatus(s.reg, Behind(t, d), Rendered)
    requires forall e :: IsEdge(e) && e != d ==> Behind(t, e) !in s.reg
    ensures var r := TryExtend(s, current, t);
            r.reg == s.reg[t := Pending]
            && |r.jobs| == |s.jobs| + 1 && r.jobs[..|s.jobs|] == s.jobs
            && r.jobs[|s.jobs|].InpaintJob? && r.jobs[|s.jobs|].target == t && r.jobs[|s.jobs|].direction == d
  {
    assert Behind(t, d) in s.tiles;
    LoneNeighbourSource(s, t, d);
    ReservesWithSourceDirection(s, current, t, d);
  }

  /** With two Rendered orthogonal neighbours, behind t in directions d1 and
      d2 (d1 enumerated first), the source texture exists and its direction
      is the corner c between them. */
  lemma CornerPairSource(s: State, t: Key, d1: Direction, d2: Direction, c: Direction)
    requires TilesFit(s) && IsEdge(d1) && IsEdge(d2) && Rank(d1) < Rank(d2) && SeedKey in s.tiles
    requires HasStatus(s.reg, Behind(t, d1), Rendered) && HasStatus(s.reg, Behind(t, d2), Rendered)
    requires Behind(t, d1) in s.tiles && Behind(t, d2) in s.tiles
    requires forall e :: IsEdge(e) && e != d1 && e != d2 ==> Behind(t, e) !in s.reg
    requires Unit(c) == Add(Unit(d1), Unit(d2)) && !IsEdge(c)
    ensures SourceTexture(s, t).Some? && SourceTexture(s, t).value.1 == c
  {
    var b1 := Behind(t, d1);
    var b2 := Behind(t, d2);
    assert RenderedNeighbours(s.reg, t) == [b1, b2] by {
      TwoRenderedNeighbours(s.reg, t, d1, d2);
    }
    var nbrs := [Neighbour(s.tiles[b1], b1), Neighbour(s.tiles[b2], b2)];
    assert NeighbourImages(s, [b1, b2]) == Some(nbrs) by {
      var keys := [b1, b2];
      ImagesOfPresentTiles(s, keys);
      var ni := NeighbourImages(s, keys);
      assert keys[0] == b1 && keys[1] == b2;
      assert |ni.value| == 2 && ni.value[0] == nbrs[0] && ni.value[1] == nbrs[1];
      assert ni.value == nbrs;
    }
    assert SourceTexture(s, t) == CreateInpaintSource(nbrs, t, s.size);
    CornerPairDirection(nbrs, t, s.size, d1, d2, c);
  }

  /** A tile whose only present orthogonal neighbours are the two Rendered
      tiles behind it in directions d1 and d2 (d1 enumerated first) is
      reserved, with a request for the corner direction c. */
  lemma ExtendsFromCornerPair(s: State, current: Key, t: Key, d1: Direction, d2: Direction, c: Direction)
    requires Inv(s) && IsEdge(d1) && IsEdge(d2) && Rank(d1) < Rank(d2) && t !in s.reg && SeedKey in s.tiles
    requires HasStatus(s.reg, Behind(t, d1), Rendered) && HasStatus(s.reg, Behind(t, d2), Rendered)
    requires forall e :: IsEdge(e) && e != d1 && e != d2 ==> Behind(t, e) !in s.reg
    requires Unit(c) == Add(Unit(d1), Unit(d2)) && !IsEdge(c)
    ensures var r := TryExtend(s, current, t);
            r.reg == s.reg[t := Pending]
            && |r.jobs| == |s.jobs| + 1 && r.jobs[..|s.jobs|] == s.jobs
            && r.jobs[|s.jobs|].InpaintJob? && r.jobs[|s.jobs|].target == t && r.jobs[|s.jobs|].direction == c
  {
    assert Behind(t, d1) in s.tiles && Behind(t, d2) in s.tiles;
    CornerPairSource(s, t, d1, d2, c);
    ReservesWithSourceDirection(s, current, t, c);
  }

  /** The registry after the seed and the first i edge tiles around it (in
      the loop's order Up, Down, Left, Right) have been reserved. */
  function RingReg(i: nat): (reg: Reg)
    requires i <= 4
    ensures HasStatus(reg, SeedKey, Rendered)
    ensures forall j :: 0 <= j < i ==> HasStatus(reg, Unit(FromOrdinal(j)), Pending)
  {
    if i == 0 then map[SeedKey := Rendered]
    else RingReg(i - 1)[Unit(FromOrdinal(i - 1)) := Pending]
  }

  /** RingReg(i) holds the seed and the first i edge tiles, nothing else. */
  lemma {:induction false} InRing(i: nat, k: Key)
    requires i <= 4
    ensures k in RingReg(i) <==> k == SeedKey || exists j :: 0 <= j < i && k == Unit(FromOrdinal(j))
  {
    if i > 0 {
      InRing(i - 1, k);
    }
  }

  /** The first frame after the seed renders, with the viewer on the seed:
      the four edge tiles are reserved, in the loop's order Up, Down, Left,
      Right, each extending the seed in its own direction; the four corners
      are skipped because each touches a Pending edge tile. */
  lemma FirstRing(s: State, img: Image)
    requires IsSquare(img, s.size)
    requires s.reg == map[SeedKey := Rendered] && s.tiles == map[SeedKey := img] && s.jobs == []
    ensures Inv(s)
    ensures var r := Update(s, SeedKey, Around(SeedKey));
            && r.reg == map[SeedKey := Rendered, (0, 1) := Pending, (0, -1) := Pending, (-1, 0) := Pending, (1, 0) := Pending]
            && |r.jobs| == 4
            && (forall j :: 0 <= j < 4 ==> r.jobs[j].InpaintJob? && r.jobs[j].source == SeedKey)
            && r.jobs[0].target == (0, 1) && r.jobs[0].direction == Up
            && r.jobs[1].target == (0, -1) && r.jobs[1].direction == Down
            && r.jobs[2].target == (-1, 0) && r.jobs[2].direction == Left
            && r.jobs[3].target == (1, 0) && r.jobs[3].direction == Right
  {
    var r := FirstRingLoop(s, img);
    FullRing();
    assert r.jobs[0].InpaintJob? && r.jobs[1].InpaintJob? && r.jobs[2].InpaintJob? && r.jobs[3].InpaintJob?;
  }

  /** The four edge tiles in loop order. */
  lemma FullRing()
    ensures FromOrdinal(0) == Up && FromOrdinal(1) == Down && FromOrdinal(2) == Left && FromOrdinal(3) == Right
    ensures RingReg(4) == map[SeedKey := Rendered, (0, 1) := Pending, (0, -1) := Pending, (-1, 0) := Pending, (1, 0) := Pending]
  {
  }

  /** FirstRing in terms of RingReg and JobIs. */
  lemma FirstRingLoop(s: State, img: Image) returns (r: State)
    requires IsSquare(img, s.size)
    requires s.reg == map[SeedKey := Rendered] && s.tiles == map[SeedKey := img] && s.jobs == []
    ensures Inv(s) && r == Update(s, SeedKey, Around(SeedKey))
    ensures r.reg == RingReg(4) && |r.jobs| == 4
    ensures JobIs(r.jobs[0], 0) && JobIs(r.jobs[1], 1) && JobIs(r.jobs[2], 2) && JobIs(r.jobs[3], 3)
  {
    assert Inv(s);
    assert RingReg(0) == s.reg;
    RingRegFrom(s, img, 0);
    RingJobsFrom(s, img, 0);
    r := CheckAdditionalMapTile(s, SeedKey, Around(SeedKey), 0);
    assert r.jobs[0..] == r.jobs;
    RingJobsUnfold(r.jobs);
  }

  lemma RingJobsUnfold(js: seq<Job>)
    requires RingJobs(js, 0)
    ensures |js| == 4 && JobIs(js[0], 0) && JobIs(js[1], 1) && JobIs(js[2], 2) && JobIs(js[3], 3)
  {
    assert js[1..][0] == js[1];
    assert js[1..][1..][0] == js[2];
    assert js[1..][1..][1..][0] == js[3];
  }

  /** Request for the edge tile the loop reaches at iteration j < 4. */
  predicate JobIs(job: Job, j: nat)
    requires j < 4
  {
    job.InpaintJob? && job.source == SeedKey && job.target == Unit(FromOrdinal(j)) && job.direction == FromOrdinal(j)
  }

  /** The requests issued by iterations i .. 3, in order. */
  predicate RingJobs(js: seq<Job>, i: nat)
    requires i <= 4
    decreases 4 - i
  {
    |js| == 4 - i && (i < 4 ==> JobIs(js[0], i) && RingJobs(js[1..], i + 1))
  }

  /** Iteration i < 4 of the first frame reserves the i-th edge tile. */
  lemma RingStep(s: State, img: Image, i: nat) returns (s': State)
    requires i < 4 && Inv(s) && s.reg == RingReg(i) && s.tiles == map[SeedKey := img]
    ensures s' == TryExtend(s, SeedKey, TargetOf(Around(SeedKey), FromOrdinal(i)))
    ensures Inv(s') && s'.reg == RingReg(i + 1) && s'.tiles == s.tiles
    ensures |s'.jobs| == |s.jobs| + 1 && s'.jobs[..|s.jobs|] == s.jobs && JobIs(s'.jobs[|s.jobs|], i)
  {
    var d := FromOrdinal(i);
    var t := TargetOf(Around(SeedKey), d);
    assert t == Unit(d);
    forall e | IsEdge(e) && e != d
      ensures Behind(t, e) !in s.reg
    {
      InRing(i, Behind(t, e));
      UnitIsBijective(d, e);
      forall j | 0 <= j < i
        ensures Behind(t, e) != Unit(FromOrdinal(j))
      {
        UnitIsBijective(d, FromOrdinal(j));
      }
    }
    forall j | 0 <= j < i
      ensures t != Unit(FromOrdinal(j))
    {
      UnitIsBijective(d, FromOrdinal(j));
    }
    InRing(i, t);
    ExtendsFromLoneNeighbour(s, SeedKey, t, d);
    s' := TryExtend(s, SeedKey, t);
  }

  /** Iterations i .. 7 of the first frame leave the seed and all four edge
      tiles in the registry. */
  lemma {:induction false} RingRegFrom(s: State, img: Image, i: nat)
    requires i <= 4 && Inv(s) && s.reg == RingReg(i) && s.tiles == map[SeedKey := img]
    ensures CheckAdditionalMapTile(s, SeedKey, Around(SeedKey), i).reg == RingReg(4)
    decreases 4 - i
  {
    if i == 4 {
      CornersWaitForEdges(s, SeedKey, Around(SeedKey));
    } else {
      var s' := RingStep(s, img, i);
      RingRegFrom(s', img, i + 1);
    }
  }

  /** Iterations i .. 7 of the first frame append one request per remaining
      edge tile, in loop order. */
  lemma {:induction false} RingJobsFrom(s: State, img: Image, i: nat)
    requires i <= 4 && Inv(s) && s.reg == RingReg(i) && s.tiles == map[SeedKey := img]
    ensures RingJobs(CheckAdditionalMapTile(s, SeedKey, Around(SeedKey), i).jobs[|s.jobs|..], i)
    decreases 4 - i
  {
    if i == 4 {
      CornersWaitForEdges(s, SeedKey, Around(SeedKey));
    } else {
      var s' := RingStep(s, img, i);
      RingJobsFrom(s', img, i + 1);
      var r := CheckAdditionalMapTile(s', SeedKey, Around(SeedKey), i + 1);
      var rest := r.jobs[|s.jobs|..];
      assert rest[1..] == r.jobs[|s'.jobs|..];
      assert rest[0] == s'.jobs[|s.jobs|] by {
        assert r.jobs[..|s'.jobs|][|s.jobs|] == r.jobs[|s.jobs|];
      }
    }
  }

  /** Once the tiles above and below c are Pending, the corner
      targets around c each touch a Pending tile, so the last four
      iterations of the loop change nothing. */
  lemma CornersWaitForEdges(s: State, c: Key, ts: Targets)
    requires Inv(s) && ts == Around(c)
    requires HasStatus(s.reg, (c.0, c.1 + 1), Pending) && HasStatus(s.reg, (c.0, c.1 - 1), Pending)
    ensures CheckAdditionalMapTile(s, c, ts, 4) == s
  {
    assert HasStatus(s.reg, Behind(ts.topLeft, Left), Pending);
    assert HasStatus(s.reg, Behind(ts.topRight, Right), Pending);
    assert HasStatus(s.reg, Behind(ts.bottomLeft, Left), Pending);
    assert HasStatus(s.reg, Behind(ts.bottomRight, Right), Pending);
    forall j | 4 <= j < 8
      ensures AnyPendingNeighbour(s.reg, TargetOf(ts, FromOrdinal(j)))
    {
      assert Ordinal(FromOrdinal(j)) == j;
    }
    SkipsPendingTargets(s, c, ts, 4);
  }

  /** Iterations whose targets all have a Pending orthogonal neighbour change
      nothing. */
  lemma {:induction false} SkipsPendingTargets(s: State, c: Key, ts: Targets, i: nat)
    requires Inv(s) && i <= 8
    requires forall j :: i <= j < 8 ==> AnyPendingNeighbour(s.reg, TargetOf(ts, FromOrdinal(j)))
    ensures CheckAdditionalMapTile(s, c, ts, i) == s
    decreases 8 - i
  {
    if i < 8 {
      assert TryExtend(s, c, TargetOf(ts, FromOrdinal(i))) == s;
      SkipsPendingTargets(s, c, ts, i + 1);
    }
  }
}
