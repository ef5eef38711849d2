# LLM procedural terrain: a Dafny model of the tile map core

The game grows an endless top-down map around the player. A seed tile is
painted from a text prompt. Each further tile is inpainted from a mask
that holds half of each rendered neighbour, with the prompt described in
terms of the tile it extends. This project models the parts of that
system that are bookkeeping and pixel arithmetic, and proves what they
promise:

- **Tiles, Pixels** (`tiles.dfy`, `pixels.dfy`). Tile indices, the eight
  `ExtendDirection` values and their compass vectors, and the render
  status. Images are rows of RGBA pixels (`seq<seq<Pixel>>`, indexed
  `[y][x]`), and bytes are a 0..255 newtype.
- **Fill** (`fill.dfy`). `fillInPixels`: the half-image copy for the four
  unit offsets. It is given once as a functional definition and once as
  the source's loops, and the two are proved equal.
- **Composite** (`composite.dfy`). `CreateInpaintSourceTexture` once the
  neighbour list is known: the transparent buffer, one fill per
  neighbour, and the inferred direction.
- **Resolver** (`resolver.dfy`). `GetRenderedNeighborTileIndex`.
- **Registry** (`registry.dfy`). `MapGenerator`'s registry of tile keys
  as an event-driven state machine. A frame (`Tick`), the start button
  (`Start`) and the resumption of one outstanding asynchronous request
  (`Done`) are the events. The invariant is proved to hold in every
  reachable state, and there are lemmas about the discovery loop, the
  seed path and the first ring of tiles.
- **ServerTexture** (`servertexture.dfy`). `ServerClient.CreateNewTexture`,
  compared with `fillInPixels`.
- **Heading, Player, Enemy** (`heading.dfy`, `player.dfy`, `enemy.dfy`).
  The rotation table, one frame of `Player.Update` and the eight-sector
  classifier of `BaseEnemy.Update`.
- **Text, TileIds** (`text.dfy`, `tileid.dfy`). Python's `find`, `split`,
  `strip`, `replace` and `str(int)` on strings, and the server's tile
  keys `generate_tile_id`.
- **Llm** (`llm.dfy`). `LLMHelper.chat`: prompt assembly, the history
  push/pop, reply extraction and quote removal. The language model is an
  opaque function from prompt to text.
- **Server** (`server.dfy`). The `/gen` and `/inpaint` endpoints as
  functions on the server state: the `tile_prompts` map, the helper's
  history and the written uploads. The `USE_LLM` and `DEBUG` switches are
  a parameter.

Inputs the model does not compute are parameters:

- the eight target tile indices around the viewer;
- whether an enemy is on screen, and its Atan2 bearing to the player;
- the pressed keys and the frame's step length;
- the texture (or failure) a remote request returns;
- the language model, the diffusion pipelines, and whether a written
  upload is visible on disk.

Three behaviours of the code worth noting:

- The resolver always examines the four orthogonal neighbours of the
  target, whichever direction the request came from.
- With three or four rendered neighbours no branch of
  `CreateInpaintSourceTexture` matches. The result is then the fully
  transparent buffer with direction `Up`, and the tile is reserved and
  requested like any other.
- A failed seed request is only logged, so the seed key stays Pending
  and the map never starts (`Registry.FailedSeedStallsMap`).

## Model

| member | source | states |
|---|---|---|
| Tiles.FromOrdinal | Assets/Scripts/MapGenerator.cs:169-172 | the cast `(ExtendDirection)i` for i = 0..7 names the direction whose ordinal is i, so the loop visits each direction once |
| Tiles.UnitIsBijective | Assets/Scripts/MapGenerator.cs:439-517 | distinct directions have distinct compass vectors; the edge directions are exactly those with a unit offset and the corners those with a diagonal offset |
| Tiles.DirectionOfVector | Assets/Scripts/Player.cs:51-90 | every non-zero vector with components in {-1, 0, 1} is the compass vector of some direction, and no other vector is |
| Pixels.Blank | Assets/Scripts/MapGenerator.cs:425-434 | the new buffer has the requested size and every pixel is (0,0,0,0) |
| Fill.FillIn | Assets/Scripts/MapGenerator.cs:529-578 | filling keeps the target's n-by-n size |
| Fill.UpCopiesUpperRows | Assets/Scripts/MapGenerator.cs:533-543 | offset (0,1): target rows 0..n-1-n/2 receive source rows n/2..n-1, column for column; every other target pixel is unchanged |
| Fill.DownCopiesLowerRows | Assets/Scripts/MapGenerator.cs:544-554 | offset (0,-1): target rows n/2..2*(n/2)-1 receive source rows 0..n/2-1; every other target pixel is unchanged |
| Fill.LeftCopiesLowColumns | Assets/Scripts/MapGenerator.cs:555-565 | offset (-1,0): target columns n/2..2*(n/2)-1 receive source columns 0..n/2-1; every other target pixel is unchanged |
| Fill.RightCopiesHighColumns | Assets/Scripts/MapGenerator.cs:566-577 | offset (1,0): target columns 0..n-1-n/2 receive source columns n/2..n-1; every other target pixel is unchanged |
| Fill.OtherOffsetsAreNoOps | Assets/Scripts/MapGenerator.cs:529-578 | any offset other than the four unit offsets leaves the target exactly as it was |
| Fill.OddSizeHalves | Assets/Scripts/MapGenerator.cs:533-577 | for odd n the Up and Right copies reach the middle row or column, while the Down and Left copies never write the last row or column |
| Fill.FillInPixels | Assets/Scripts/MapGenerator.cs:529-578 | the source's nested loops compute exactly the functional FillIn |
| Fill.CopyUp | Assets/Scripts/MapGenerator.cs:533-543 | the Up loop writes, at every pixel, the value the pointwise rule picks for offset (0,1) |
| Fill.CopyDown | Assets/Scripts/MapGenerator.cs:544-554 | the Down loop writes, at every pixel, the value the pointwise rule picks for offset (0,-1) |
| Fill.CopyLeft | Assets/Scripts/MapGenerator.cs:555-565 | the Left loop writes, at every pixel, the value the pointwise rule picks for offset (-1,0) |
| Fill.CopyRight | Assets/Scripts/MapGenerator.cs:566-577 | the Right loop writes, at every pixel, the value the pointwise rule picks for offset (1,0) |
| Composite.EdgeDirection | Assets/Scripts/MapGenerator.cs:439-475 | a single neighbour gives a direction exactly when its offset is a unit offset, and that direction's vector is the offset |
| Composite.CornerDirection | Assets/Scripts/MapGenerator.cs:476-517 | two offsets give a direction exactly when they are unit offsets at right angles, and it is the corner whose vector is their sum |
| Composite.CornerDirectionSymmetric | Assets/Scripts/MapGenerator.cs:476-517 | the corner chosen does not depend on the order of the two neighbours |
| Composite.CreateInpaintSource | Assets/Scripts/MapGenerator.cs:406-527 | no neighbour gives null; one or two give a texture exactly for a unit offset or a corner pair, with the matching direction; three or more give the all-transparent buffer with Up; every texture is n-by-n |
| Composite.LoneNeighbourDirection | Assets/Scripts/MapGenerator.cs:439-475 | a lone neighbour behind the target in edge direction d yields a texture extended in direction d |
| Composite.CornerPairDirection | Assets/Scripts/MapGenerator.cs:476-517 | two neighbours behind the target in edge directions d1 and d2 yield a texture extended towards the corner between them |
| Composite.CompositeIsLayered | Assets/Scripts/MapGenerator.cs:435-517 | each pixel of the mask is the transparent background overwritten by each neighbour's half-copy in list order |
| Composite.CornerOrderInsensitive | Assets/Scripts/MapGenerator.cs:476-517 | swapping the two neighbours changes neither whether a texture exists nor its direction, nor any pixel that only one of them reaches |
| Composite.TopRightLeavesFarQuadrantClear | Assets/Scripts/MapGenerator.cs:476-517 | for neighbours below and to the left, the mask is TopRight: the upper-right quadrant stays transparent, the left part comes from the left tile and the rest from the tile below |
| Resolver.Candidates | Assets/Scripts/MapGenerator.cs:368-378 | the candidate dictionary holds the four orthogonal neighbours, in the order Down, Up, Right, Left; the diagonal entries take no part |
| Resolver.Scan | Assets/Scripts/MapGenerator.cs:380-398 | the foreach flags a Pending candidate exactly when one exists, and collects exactly the Rendered candidates in enumeration order |
| Resolver.RenderedNeighbours | Assets/Scripts/MapGenerator.cs:366-404 | any Pending orthogonal neighbour gives the empty list; otherwise the list holds exactly the Rendered orthogonal neighbours, in enumeration order, at most four |
| Resolver.OneRenderedNeighbour | Assets/Scripts/MapGenerator.cs:366-404 | when the only present orthogonal neighbour is Rendered, the resolver returns just that one |
| Resolver.TwoRenderedNeighbours | Assets/Scripts/MapGenerator.cs:366-404 | when exactly two orthogonal neighbours are present, both Rendered, the resolver returns both in enumeration order |
| Resolver.TwoNeighboursCornerUnlessOpposite | Assets/Scripts/MapGenerator.cs:476-517 | two distinct resolver results form a corner pair exactly when they do not sit on opposite sides of the target |
| Registry.IsGameTileMapInitialized | Assets/Scripts/MapGenerator.cs:53-71 | the gate is open exactly when the registry exists and holds the seed key as Rendered; an absent or Pending seed keeps it closed |
| Registry.LoadChildren | Assets/Scripts/MapGenerator.cs:192-204 | loading children adds only their names, all as Rendered, keeps every earlier sprite, and keeps "has a sprite exactly when Rendered" |
| Registry.LoadsDistinctChildren | Assets/Scripts/MapGenerator.cs:198-203 | when no name repeats and none is registered yet, every child is registered as Rendered with its own texture |
| Registry.TileFromSomeChild | Assets/Scripts/MapGenerator.cs:198-203 | every sprite after loading is an earlier one or some child's texture |
| Registry.Initialize | Assets/Scripts/MapGenerator.cs:192-204 | a fresh registry satisfies the invariant, has nothing in flight, registers only children's names as Rendered, and all of them when the names are distinct |
| Registry.NeighbourImages | Assets/Scripts/MapGenerator.cs:411-427 | the neighbour textures are looked up in order; the lookup fails exactly when the seed tile or some neighbour has no sprite |
| Registry.SourceTexture | Assets/Scripts/MapGenerator.cs:406-527 | a mask exists only as an n-by-n image, n being the seed tile's size |
| Registry.GenerateAdditionalMapTile | Assets/Scripts/MapGenerator.cs:301-337 | a present key or a null composite (a Pending neighbour, no Rendered neighbour, an opposite pair, or a failed lookup) leaves the state unchanged; otherwise the absent key becomes Pending and exactly one request is appended, from the current tile to the target, carrying the composite's mask and direction; the invariant is kept |
| Registry.ReserveKeepsInv | Assets/Scripts/MapGenerator.cs:330-337 | reserving an absent key as Pending together with its request keeps the invariant |
| Registry.TryExtend | Assets/Scripts/MapGenerator.cs:172-177 | one loop iteration can add only the visited key, as Pending, and otherwise only appends requests |
| Registry.CheckAdditionalMapTile | Assets/Scripts/MapGenerator.cs:169-178 | the discovery loop keeps the invariant, changes no present key, and adds only target keys of directions not yet visited, all Pending |
| Registry.Update | Assets/Scripts/MapGenerator.cs:92-104 | nothing happens until the seed is Rendered; afterwards no present key changes and every new key is a Pending target |
| Registry.StartGame | Assets/Scripts/MapGenerator.cs:106-117 | an empty prompt or an existing seed key changes nothing; otherwise the seed becomes Pending and one seed request is issued |
| Registry.StartIsIdempotent | Assets/Scripts/MapGenerator.cs:207-213 | pressing start twice issues at most one seed request: the second press changes nothing once the first did |
| Registry.Complete | Assets/Scripts/MapGenerator.cs:338-360 | settling request i removes it from the in-flight list and touches no other key; success makes the key Rendered with the returned texture; an inpainting failure removes the key; a seed failure leaves the registry as it was |
| Registry.CompleteKeepsInv | Assets/Scripts/MapGenerator.cs:226-252 | settling a request (sprite placed and Rendered, key removed, or seed left Pending) keeps the invariant and leaves no request for that key |
| Registry.Step | Assets/Scripts/MapGenerator.cs:92-117 | every event keeps the registry invariant: a key has a sprite exactly when Rendered, requests are for distinct Pending keys, and every Pending non-seed key has its request in flight |
| Registry.Run | Assets/Scripts/MapGenerator.cs:92-117 | the invariant holds after any sequence of events |
| Registry.RenderedIsFinal | Assets/Scripts/MapGenerator.cs:240-252 | a Rendered key stays Rendered and keeps its sprite under every event |
| Registry.ChangesOnlyBySettling | Assets/Scripts/MapGenerator.cs:338-360 | a present key changes only when its own request is settled: it was Pending, and it becomes Rendered on success or disappears on an inpainting failure |
| Registry.NewKeysAreRequested | Assets/Scripts/MapGenerator.cs:330-337 | a key that appears is Pending and has its request in flight |
| Registry.NoDuplicateRequest | Assets/Scripts/MapGenerator.cs:306-337 | a frame never issues a second request for a key that already has one in flight |
| Registry.FailedSeedStallsMap | Assets/Scripts/MapGenerator.cs:207-224 | once the seed request has failed, no sequence of events opens the gate or adds a key |
| Registry.SeedStaysStuck | Assets/Scripts/MapGenerator.cs:220-223 | a Pending seed without a request stays so under every event, and no key is added |
| Registry.SeedFailureLeavesSeedPending | Assets/Scripts/MapGenerator.cs:220-223 | a failed seed request leaves the seed Pending with nothing in flight for it |
| Registry.ExtendsFromLoneNeighbour | Assets/Scripts/MapGenerator.cs:301-337 | an absent tile whose only present orthogonal neighbour is Rendered is reserved, with one request extending in the direction away from that neighbour |
| Registry.ExtendsFromCornerPair | Assets/Scripts/MapGenerator.cs:301-337 | an absent tile with exactly two Rendered orthogonal neighbours at right angles is reserved, with one request for the corner between them |
| Registry.FirstRing | Assets/Scripts/MapGenerator.cs:169-178 | the first frame after the seed renders reserves exactly the four edge tiles, with requests Up, Down, Left, Right in that order, all from the seed |
| Registry.CornersWaitForEdges | Assets/Scripts/MapGenerator.cs:169-178 | while the tiles above and below the viewer are Pending, the corner iterations of the loop change nothing |
| Registry.SkipsPendingTargets | Assets/Scripts/MapGenerator.cs:169-178 | iterations whose targets all have a Pending neighbour leave the state unchanged |
| ServerTexture.ShiftLeftHalf | Assets/Scripts/ServerClient.cs:146-151 | the output texture has the width and height of the input |
| ServerTexture.ShiftLeftHalfPointwise | Assets/Scripts/ServerClient.cs:153-169 | column x < w/2 of each row is input column x + w/2, and every other pixel is transparent |
| ServerTexture.CreateNewTexture | Assets/Scripts/ServerClient.cs:144-175 | the two loops produce a w-by-h texture whose left half is the input's right half and whose right half is transparent |
| ServerTexture.CreateNewTextureIsShift | Assets/Scripts/ServerClient.cs:153-169 | any texture with that pixel description equals ShiftLeftHalf, so the loops' result is determined by it |
| ServerTexture.ShiftTwiceIsBlank | Assets/Scripts/ServerClient.cs:153-169 | shifting twice leaves nothing: the result is the all-transparent image |
| ServerTexture.EvenSizeMatchesRightExtension | Assets/Scripts/ServerClient.cs:144-175 | for an even square size the shift equals fillInPixels with offset (1,0) on a transparent target |
| ServerTexture.OddSizeDiffersInMiddleColumn | Assets/Scripts/ServerClient.cs:144-175 | for an odd square size the two agree everywhere except column n/2, which the shift leaves transparent and fillInPixels fills from the last column |
| ServerTexture.OddWidthIgnoresLastColumn | Assets/Scripts/ServerClient.cs:153-160 | for an odd width the input's last column never reaches the output |
| Heading.RotationFacesDirection | Assets/Scripts/Player.cs:92-120 | each rotation in the switch is a multiple of 45 degrees that turns an up-facing sprite to face along its direction's compass vector |
| Heading.RotationIsInjective | Assets/Scripts/Player.cs:92-120 | distinct directions get rotations that differ even up to full turns |
| Player.PlayerUpdate | Assets/Scripts/Player.cs:35-135 | with the gate closed nothing moves or turns; otherwise the facing is the one the movement keys give (kept when none is held), the step is (horizontal, vertical) times speed, the sprites get the facing's rotation, and a bullet with the same rotation is fired exactly when space went down |
| Player.FacingFollowsMovement | Assets/Scripts/Player.cs:44-90 | when a movement key takes effect the new facing is the direction of the displacement, diagonal when both axes move; otherwise the facing is kept |
| Player.MovesAlongFacing | Assets/Scripts/Player.cs:51-126 | a moving player's step has the sign of its facing's compass vector on each axis, and its sprites face that way |
| Player.OneStepPerAxis | Assets/Scripts/Player.cs:51-71 | each component of the step is -speed, 0 or +speed; Left beats Right and Up beats Down |
| Player.FrozenUntilInitialized | Assets/Scripts/Player.cs:38-42 | with the gate closed the facing is kept, there is no step and no bullet |
| Player.BulletFollowsFacing | Assets/Scripts/Player.cs:129-133 | a bullet fired this frame faces where the player faces |
| Enemy.EnemyUpdate | Assets/Scripts/BaseEnemy.cs:34-86 | off screen nothing changes; on screen the rotation is that of exactly the direction whose 45-degree window holds the bearing |
| Enemy.SectorDirection | Assets/Scripts/BaseEnemy.cs:43-82 | every rotation the chain assigns is the player's rotation for some compass direction |
| Enemy.ChainPicksNearest | Assets/Scripts/BaseEnemy.cs:43-82 | for every Atan2 bearing the chain assigns the rotation of direction d exactly when the bearing lies in d's window |
| Enemy.WindowsPartitionTheCircle | Assets/Scripts/BaseEnemy.cs:43-82 | the eight windows cover every bearing and never overlap |
| Enemy.EnemyFacesPlayer | Assets/Scripts/BaseEnemy.cs:29-86 | an enemy on screen faces, and so steps along, the compass vector of the direction nearest its bearing to the player |
| Enemy.WindowBoundaries | Assets/Scripts/BaseEnemy.cs:43-66 | the windows are open below and closed above: 22.5 faces right, 67.5 up-right, and -157.5 and both ends of the range face left |
| Text.FindIsFirst | Server/LLMHelper.py:104 | the marker is found exactly when the text contains it, and no earlier position holds it |
| Text.SplitJoin | Server/LLMHelper.py:105 | joining the pieces of a split with the separator gives the text back, no piece holds the separator, and there is more than one piece exactly when the text contains it |
| Text.LastPieceFollowsSeparator | Server/LLMHelper.py:105 | `split(sep)[-1]` is the text after the last separator: it holds no separator, and when the text has one it sits right before the piece |
| Text.StripKeepsMiddle | Server/LLMHelper.py:105 | `strip()` removes only whitespace from both ends and keeps the middle; the result neither starts nor ends with whitespace |
| Text.StripIsIdempotent | Server/LLMHelper.py:105 | stripping a stripped text changes nothing |
| Text.RemoveAll | Server/LLMHelper.py:111 | `replace('"', "")` leaves no double quote and never lengthens the text |
| Text.RemoveAllKeepsOthers | Server/LLMHelper.py:111 | every other character is kept as often as it occurred, and a text without quotes is unchanged |
| Text.RemoveAllAppend | Server/LLMHelper.py:111 | removing a character from two texts one after the other is removing it from each |
| Text.IntToStrRoundTrip | Server/main.py:56-57 | the decimal text of an integer reads back as that integer |
| TileIds.SeparatorIsUnique | Server/main.py:56-57 | a tile key has exactly one underscore, right after the printed x |
| TileIds.TileIdRoundTrip | Server/main.py:56-57 | cutting a key at its underscore and reading both sides gives back (x, y) |
| TileIds.TileIdInjective | Server/main.py:56-57 | distinct tiles have distinct keys |
| TileIds.TempFileName | Server/main.py:245 | the upload's file name is "temp", the tile key of the target, then ".png" |
| TileIds.TempFileNameInjective | Server/main.py:245-249 | uploads for distinct targets go to distinct files |
| Llm.TranscriptAppend | Server/LLMHelper.py:75-79 | the lines of a history are the lines of its parts, in order |
| Llm.BuildPrompt | Server/LLMHelper.py:74-81 | the source's loop builds the system line, one line per turn in history order, then the marker |
| Llm.PromptShape | Server/LLMHelper.py:74-81 | every prompt begins with "System: " + instruction + newline and ends with "Assistant:" |
| Llm.PromptEndsWithMessage | Server/LLMHelper.py:71-81 | the new message is the last user line, right before the final marker, after the lines of the earlier history |
| Llm.Chat | Server/LLMHelper.py:51-122 | the model sees the prompt for the history plus the user turn; the reply is the extracted text without quotes; the history afterwards is the old one plus one assistant turn holding the reply |
| Llm.ExtractFollowsLastMarker | Server/LLMHelper.py:104-108 | with a marker the reply is the stripped text after its last occurrence; without one it is the whole text, unstripped |
| Llm.HistoryKeepsOnlyReplies | Server/LLMHelper.py:71-114 | each call adds exactly one entry, an assistant turn, and keeps the earlier ones, so a history that starts without user turns never gets one |
| Server.Refine | Server/main.py:135-136 | with USE_LLM off the prompt and history are unchanged; with it on, the helper is asked exactly the given question, and the prompt is NECESSARY_PROMPTS followed by its quote-free reply, which is the one entry added to the history |
| Server.Gen | Server/main.py:126-189 | /gen always answers with an image and writes no file; in debug mode it records nothing; otherwise it records the final prompt under "0_0" and keeps every other record; with USE_LLM on, that prompt is NECESSARY_PROMPTS followed by the helper's reply to the preamble plus the request's prompt |
| Server.PreviousPrompt | Server/main.py:221-223 | the source tile's recorded prompt, or "" when there is none |
| Server.Inpaint | Server/main.py:203-321 | a non-image upload gets 400 with no file written and no record; an image is written to its temp path; a missing file gets 500; an image answer comes exactly for a visible image upload, and then the prompt is recorded under the target key with every other record kept; with USE_LLM on, the helper is asked the extension question quoting the source tile's recorded prompt, and the recorded prompt is NECESSARY_PROMPTS followed by its reply |
| Server.ExtensionQuotesSourcePrompt | Server/main.py:221-235 | after a tile is inpainted, a request extending from it reads exactly the prompt it was painted with |
| Server.SeedPromptReachesNeighbours | Server/main.py:133-187 | after /gen, a request extending from the seed reads the seed's prompt |
| Server.UnknownSourceQuotesNothing | Server/main.py:221-235 | a source tile without a record puts nothing between "this prompt: " and the rest of the question |
| Server.TargetsKeepSeparateRecords | Server/main.py:245-317 | requests for different targets never share an upload path or a prompt key |
| Server.DeployedKeepsRequestPrompts | Server/main.py:29-33 | with both switches off the helper's history never changes and each record is the request's own prompt |
| Server.RejectedUploadStillConsultsModel | Server/main.py:227-242 | with USE_LLM on, a rejected upload still costs one model call, because the content type is checked after the prompt is refined |

## Left out

- Unity objects and I/O are not modelled: `GameObject.Find`, `Sprite`, `Texture2D`, `Camera`, `Input`, `Quaternion`, PNG writes and log calls.
- A sprite placed on screen is its texture stored under the tile's index. The float position, scale and names `CreateSpriteGameObject` gives it (MapGenerator.cs:259-298) are not modelled.
- The float geometry is not modelled: camera sizing, rounding the viewer's position to tile indices, and the `sqrt(2)` diagonal offsets (MapGenerator.cs:125-167). The eight target indices are an input.
- `TileTools.GenerateId` is not part of this model. The registry is keyed by integer pairs, so two children with the same name are two equal keys.
- A child whose name is not a tile index is not modelled.
- Remote requests are not modelled. `ServerClient`'s HTTP calls become the `Done` event with an image or `None`, and any exception on the way is `None`.
- The `async` interleaving is not modelled beyond this: each synchronous prefix runs without interruption, and the resumptions come later in any order.
- The language model, the tokenizer, and the diffusion and inpainting pipelines are opaque functions. Sampling parameters and the random seed do not appear.
- `inpaint_pixel.py`, `image_gen.py`, `vlm.py` and `GPTHelper.py` are not part of this model.
- `gpu_lock` and the semaphore are not modelled. Each request is one atomic step.
- The `tile_prompts.json` dump at shutdown and `wait_for_file` are not modelled.
- `BaseBullet` and the collision setup of enemies are not modelled.
- Text.IsSpace: only the characters Python's `str.strip()` treats as whitespace are listed. There is no Unicode database lookup.
- Player.PlayerUpdate: positions and the step `Time.deltaTime * 4` are reals. There is no float rounding, and the step is a parameter.
- Enemy.EnemyUpdate: returns the rotation only, for a bearing in Atan2's range [-180, 180]. The forward step is the rotation's compass vector (`Heading.Facing`) times speed and is not computed as a position.
- Resolver.Candidates: the order Down, Up, Right, Left is the insertion order of the C# dictionary literal. .NET does not document that a `Dictionary` enumerates in insertion order, but it does so when nothing is removed, and the model assumes it. The order decides which neighbour wins the shared quadrant of a corner mask (`Composite.CompositeIsLayered`).
- Registry.Step: every returned texture is assumed to have the seed's size n-by-n (`Admissible`). The server paints 768-by-768 seeds (Server/main.py:71-73), and inpainting returns an image of the upload's size, but the client does not check it.
- Server.Inpaint: the form defaults and the negative prompt are not modelled. Only the fields that reach the state or the answer are.
