/** The FastAPI server's bookkeeping around image generation: the `/gen`
    endpoint that paints the seed tile and the `/inpaint` endpoint that
    extends the map, with the prompt remembered per tile so a neighbour can
    be described in terms of it. The diffusion pipelines are one opaque
    function from prompt (and mask) to PNG bytes; the language model is the
    one of Llm. */
module Server {
  import opened Pixels
  import opened Text
  import opened Llm
  import opened TileIds

  /** The module-level switches USE_LLM and DEBUG. */
  datatype Config = Config(useLlm: bool, debug: bool)

  /** The values the server ships with: no language model, no debug
      shortcut. */
  const Deployed := Config(false, false)

  const NecessaryPrompts := "A 2D game sprite, Pixel art, 64 bit, top-view, 2d tilemap, game, flat design"
  const GenPreamble := "Help me create a top-view image prompt based on this: "
  const UploadDir := "ComfyUI/input/"
  const ImagePrefix := "image/"
  const InvalidFileType := "Invalid file type"
  const FileNotFound := "File not found after write"

  /** The fixed parts of the extension question. */
  const QuestionOpening := "The scene that the player currently is in is a scene generated with this prompt: "
  const QuestionMiddle :=
    " I want to create a scene that is connected to this scene. But don't be too creative. The scene should be connected to the current scene. "
    + ". What would be the prompt for the scene when the player moves "

  /** The server's state: the `tile_prompts` dictionary, the language
      model helper's history and the files the server wrote. */
  datatype State = State(prompts: map<string, string>, history: seq<Turn>, files: map<string, seq<byte>>)

  /** An HTTP answer: a PNG image or a JSON error with a status code. */
  datatype Response = Png(body: seq<byte>) | Failure(status: int, error: string)

  datatype Outcome = Outcome(state: State, response: Response)

  /** The opaque parts a request depends on: the language model, the
      text-to-image and inpainting pipelines, the image the debug shortcut
      returns, and whether a written upload is found on disk. */
  datatype World = World(
    generate: string -> string,
    paint: string -> seq<byte>,
    inpaint: (string, seq<byte>) -> seq<byte>,
    debugImage: seq<byte>,
    uploadVisible: bool)

  /** Asks the language model for a prompt when USE_LLM is on; returns the
      prompt to use and the helper's history afterwards. */
  function Refine(cfg: Config, s: State, w: World, question: string, fallback: string): (r: (string, seq<Turn>))
    ensures !cfg.useLlm ==> r == (fallback, s.history)
    ensures cfg.useLlm ==> |r.1| == |s.history| + 1 && r.1[..|s.history|] == s.history
    ensures cfg.useLlm ==> r.0 == NecessaryPrompts + r.1[|s.history|].content
                            && '"' !in r.1[|s.history|].content
    ensures cfg.useLlm ==>
              var c := Chat(DefaultSystemInstruction, s.history, question, w.generate);
              r == (NecessaryPrompts + c.reply, c.history)
  {
    if cfg.useLlm then
      var c := Chat(DefaultSystemInstruction, s.history, question, w.generate);
      (NecessaryPrompts + c.reply, c.history)
    else (fallback, s.history)
  }

  /** GET /gen. The request's prompt is prefixed with a request for a
      top-view prompt; with the language model on, its answer (after the
      necessary keywords) replaces it. In debug mode a stored image is
      returned and nothing is recorded; otherwise the image is painted and
      the prompt recorded under the seed's key "0_0". */
  function Gen(cfg: Config, s: State, w: World, posPrompt: string): (r: Outcome)
    ensures r.response.Png?
    ensures r.state.files == s.files
    ensures cfg.debug ==> r.state.prompts == s.prompts && r.response.body == w.debugImage
    ensures !cfg.debug ==> r.state.prompts.Keys == s.prompts.Keys + {TileId(0, 0)}
                           && forall k :: k in s.prompts && k != TileId(0, 0) ==> r.state.prompts[k] == s.prompts[k]
    ensures !cfg.debug && !cfg.useLlm ==> r.state.prompts[TileId(0, 0)] == GenPreamble + posPrompt
    ensures !cfg.debug && cfg.useLlm ==>
              exists reply :: '"' !in reply && r.state.prompts[TileId(0, 0)] == NecessaryPrompts + reply
    ensures cfg.useLlm ==>
              var c := Chat(DefaultSystemInstruction, s.history, GenPreamble + posPrompt, w.generate);
              r.state.history == c.history
              && (!cfg.debug ==> r.state.prompts[TileId(0, 0)] == NecessaryPrompts + c.reply)
  {
    var asked := GenPreamble + posPrompt;
    var (p, h) := Refine(cfg, s, w, asked, asked);
    if cfg.debug then Outcome(s.(history := h), Png(w.debugImage))
    else
      Outcome(State(s.prompts[TileId(0, 0) := p], h, s.files), Png(w.paint(p)))
  }

  /** The form fields of POST /inpaint. */
  datatype InpaintRequest = InpaintRequest(
    contents: seq<byte>,
    contentType: string,
    posPrompt: string,
    sourceX: int, sourceY: int,
    targetX: int, targetY: int,
    extendDirection: string)

  /** The prompt recorded for the source tile, or "" when there is none. */
  function PreviousPrompt(s: State, req: InpaintRequest): (r: string)
    ensures TileId(req.sourceX, req.sourceY) in s.prompts ==> r == s.prompts[TileId(req.sourceX, req.sourceY)]
    ensures TileId(req.sourceX, req.sourceY) !in s.prompts ==> r == ""
  {
    var key := TileId(req.sourceX, req.sourceY);
    if key in s.prompts then s.prompts[key] else ""
  }

  /** The question put to the language model for an extension. */
  function ExtendQuestion(previous: string, direction: string): string
  {
    QuestionOpening + previous + QuestionMiddle + direction + "?"
  }

  /** Where the upload is written. */
  function UploadPath(req: InpaintRequest): string
  {
    UploadDir + TempFileName(req.targetX, req.targetY)
  }

  /** POST /inpaint, in the source's order: look up the source tile's
      prompt, consult the language model if enabled, reject a non-image
      upload, write the upload, check that it is there, inpaint, and record
      the prompt under the target's key. */
  function Inpaint(cfg: Config, s: State, w: World, req: InpaintRequest): (r: Outcome)
    ensures !StartsWith(req.contentType, ImagePrefix) ==>
              r.response == Failure(400, InvalidFileType)
              && r.state.files == s.files && r.state.prompts == s.prompts
    ensures StartsWith(req.contentType, ImagePrefix) ==>
              r.state.files == s.files[UploadPath(req) := req.contents]
    ensures StartsWith(req.contentType, ImagePrefix) && !w.uploadVisible ==>
              r.response.Failure? && r.response.status == 500 && r.state.prompts == s.prompts
    ensures r.response.Png? <==> StartsWith(req.contentType, ImagePrefix) && w.uploadVisible
    ensures r.response.Png? ==>
              && r.state.prompts.Keys == s.prompts.Keys + {TileId(req.targetX, req.targetY)}
              && (forall k :: k in s.prompts && k != TileId(req.targetX, req.targetY) ==> r.state.prompts[k] == s.prompts[k])
              && r.response.body == w.inpaint(r.state.prompts[TileId(req.targetX, req.targetY)], req.contents)
    ensures r.response.Png? && !cfg.useLlm ==> r.state.prompts[TileId(req.targetX, req.targetY)] == req.posPrompt
    ensures cfg.useLlm ==>
              var c := Chat(DefaultSystemInstruction, s.history, ExtendQuestion(PreviousPrompt(s, req), req.extendDirection), w.generate);
              r.state.history == c.history
              && (r.response.Png? ==> r.state.prompts[TileId(req.targetX, req.targetY)] == NecessaryPrompts + c.reply)
  {
    var previous := PreviousPrompt(s, req);
    var (p, h) := Refine(cfg, s, w, ExtendQuestion(previous, req.extendDirection), req.posPrompt);
    var s1 := s.(history := h);
    if !StartsWith(req.contentType, ImagePrefix) then Outcome(s1, Failure(400, InvalidFileType))
    else
      var path := UploadDir + TempFileName(req.targetX, req.targetY);
      var s2 := s1.(files := s1.files[path := req.contents]);
      if !w.uploadVisible then Outcome(s2, Failure(500, FileNotFound))
      else
        Outcome(s2.(prompts := s2.prompts[TileId(req.targetX, req.targetY) := p]), Png(w.inpaint(p, req.contents)))
  }

  /** After a successful inpaint of tile t, an extension from t reads
      exactly the prompt t was painted with; with the language model on,
      Inpaint's contract puts that prompt into the question it asks. */
  lemma {:induction false} ExtensionQuotesSourcePrompt(cfg: Config, s: State, w: World, req: InpaintRequest, next: InpaintRequest)
    requires Inpaint(cfg, s, w, req).response.Png?
    requires (next.sourceX, next.sourceY) == (req.targetX, req.targetY)
    ensures var r := Inpaint(cfg, s, w, req);
            PreviousPrompt(r.state, next) == r.state.prompts[TileId(req.targetX, req.targetY)]
    ensures !cfg.useLlm ==> PreviousPrompt(Inpaint(cfg, s, w, req).state, next) == req.posPrompt
  {
    var r := Inpaint(cfg, s, w, req);
    assert TileId(next.sourceX, next.sourceY) == TileId(req.targetX, req.targetY);
    assert TileId(req.targetX, req.targetY) in r.state.prompts;
  }

  /** The seed's prompt is what an extension next to the seed quotes. */
  lemma {:induction false} SeedPromptReachesNeighbours(cfg: Config, s: State, w: World, posPrompt: string, next: InpaintRequest)
    requires !cfg.debug
    requires (next.sourceX, next.sourceY) == (0, 0)
    ensures var r := Gen(cfg, s, w, posPrompt);
            PreviousPrompt(r.state, next) == r.state.prompts[TileId(0, 0)]
    ensures !cfg.useLlm ==> PreviousPrompt(Gen(cfg, s, w, posPrompt).state, next) == GenPreamble + posPrompt
  {
    var r := Gen(cfg, s, w, posPrompt);
    assert TileId(0, 0) in r.state.prompts;
  }

  /** A tile whose prompt was never recorded is described as the empty
      prompt: the question carries nothing between "this prompt: " and the
      next sentence. */
  lemma {:induction false} UnknownSourceQuotesNothing(s: State, req: InpaintRequest)
    requires TileId(req.sourceX, req.sourceY) !in s.prompts
    ensures ExtendQuestion(PreviousPrompt(s, req), req.extendDirection)
            == QuestionOpening + QuestionMiddle + req.extendDirection + "?"
  {
    assert PreviousPrompt(s, req) == "";
    assert QuestionOpening + "" == QuestionOpening;
  }

  /** Requests for different targets never overwrite each other's upload or
      prompt; a request for the same target replaces both. */
  lemma {:induction false} TargetsKeepSeparateRecords(a: InpaintRequest, b: InpaintRequest)
    requires (a.targetX, a.targetY) != (b.targetX, b.targetY)
    ensures UploadPath(a) != UploadPath(b)
    ensures TileId(a.targetX, a.targetY) != TileId(b.targetX, b.targetY)
  {
    if UploadPath(a) == UploadPath(b) {
      var n := |UploadDir|;
      assert TempFileName(a.targetX, a.targetY) == UploadPath(a)[n..];
      assert TempFileName(b.targetX, b.targetY) == UploadPath(b)[n..];
      TempFileNameInjective(a.targetX, a.targetY, b.targetX, b.targetY);
    }
    if TileId(a.targetX, a.targetY) == TileId(b.targetX, b.targetY) {
      TileIdInjective(a.targetX, a.targetY, b.targetX, b.targetY);
    }
  }

  /** As deployed, the helper's history never changes and the recorded
      prompts are the request's own (the /gen one with its preamble). */
  lemma DeployedKeepsRequestPrompts(s: State, w: World, posPrompt: string, req: InpaintRequest)
    ensures Gen(Deployed, s, w, posPrompt).state.history == s.history
    ensures Gen(Deployed, s, w, posPrompt).state.prompts[TileId(0, 0)] == GenPreamble + posPrompt
    ensures Inpaint(Deployed, s, w, req).state.history == s.history
    ensures Inpaint(Deployed, s, w, req).response.Png? ==>
              Inpaint(Deployed, s, w, req).state.prompts[TileId(req.targetX, req.targetY)] == req.posPrompt
  {
  }

  /** A rejected upload still costs a language-model call when USE_LLM is
      on: the content type is checked only after the prompt is refined. */
  lemma RejectedUploadStillConsultsModel(cfg: Config, s: State, w: World, req: InpaintRequest)
    requires cfg.useLlm && !StartsWith(req.contentType, ImagePrefix)
    ensures Inpaint(cfg, s, w, req).response == Failure(400, InvalidFileType)
    ensures |Inpaint(cfg, s, w, req).state.history| == |s.history| + 1
  {
  }
}
