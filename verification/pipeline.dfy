/** The staged conversion of convert_ozi_map after the control points are
    known: six external tools run one after the other, tmp1 .. tmp5 hold the
    intermediate results, an inner finally removes tmp2 and an outer finally
    removes tmp1, tmp3, tmp4 and tmp5. The filesystem is the set of existing
    paths; each tool is only "its exit status, and whether it left its
    destination file behind". */
module Pipeline {
  import opened Failures

  /** One run of an external tool: its exit status and whether its
      destination file exists afterwards (a failing tool may leave a partial file). */
  datatype Run = Run(code: int, writes: bool)

  /** The runs of gdal_translate (georeferencing), gdalwarp, gdal_translate
      (tiling), convert, listgeo and geotifcp. */
  datatype Tools = Tools(translate: Run, warp: Run, tile: Run, palette: Run, listgeo: Run, geotifcp: Run)

  /** The names tempfile.mktemp returned for tmp1 .. tmp5. */
  datatype Temps = Temps(t1: string, t2: string, t3: string, t4: string, t5: string)

  /** The function's frame while it runs: existing paths, the temporary names
      bound so far, and the stages whose commands have been started. */
  datatype Env = Env(fs: set<string>, bound: set<Temp>, started: seq<Stage>)

  /** A block's result: the frame on leaving it and the exception raised in it, if any. */
  datatype Outcome = Outcome(env: Env, raised: Option<Error>)

  /** How the function ends: existing paths, the exception that escapes, the stages started. */
  datatype Exit = Exit(fs: set<string>, error: Option<Error>, started: seq<Stage>)

  const StageOrder: seq<Stage> := [Translate, Warp, Tile, Palette, ListGeo, GeoTifCp]

  /** The names the outer finally visits, in order. */
  const SweepOrder: seq<Temp> := [Tmp1, Tmp3, Tmp4, Tmp5]

  function PathOf(t: Temps, n: Temp): string {
    match n
    case Tmp1 => t.t1
    case Tmp2 => t.t2
    case Tmp3 => t.t3
    case Tmp4 => t.t4
    case Tmp5 => t.t5
  }

  function RunOf(tools: Tools, s: Stage): Run {
    match s
    case Translate => tools.translate
    case Warp => tools.warp
    case Tile => tools.tile
    case Palette => tools.palette
    case ListGeo => tools.listgeo
    case GeoTifCp => tools.geotifcp
  }

  function PathsOf(t: Temps, names: seq<Temp>): set<string> {
    set n | n in names :: PathOf(t, n)
  }

  function OrEmpty(p: Option<string>): string {
    if p.Some? then p.value else ""
  }

  // ---------------------------------------------------------------------------
  // Fixed argument vectors

  function TranslateArgv(gcpArgs: seq<string>, image: string, dst: string): seq<string> {
    ["gdal_translate"] + gcpArgs + [image, dst]
  }

  function WarpArgv(src: string, dst: string): seq<string> {
    ["gdalwarp", "-tps", "-dstnodata", "255", src, dst]
  }

  function TileArgv(src: string, dst: string): seq<string> {
    ["gdal_translate", "-co", "tiled=yes", "-co", "blockxsize=256", "-co", "blockysize=256",
     "-co", "compress=deflate", "-co", "predictor=1", src, dst]
  }

  function PaletteArgv(src: string, dst: string): seq<string> {
    ["convert", "-depth", "8", "-type", "Palette", src, dst]
  }

  function ListGeoArgv(src: string): seq<string> {
    ["listgeo", "-no_norm", src]
  }

  function GeoTifCpArgv(tags: string, src: string, dst: string): seq<string> {
    ["geotifcp", "-g", tags, src, dst]
  }

  /** The argument vector each stage starts, given the -a_srs/-gcp arguments,
      the image, the output path and the temporary names. */
  function Command(s: Stage, gcpArgs: seq<string>, image: string, outfile: string, t: Temps): seq<string> {
    match s
    case Translate => TranslateArgv(gcpArgs, image, t.t1)
    case Warp => WarpArgv(t.t1, t.t2)
    case Tile => TileArgv(t.t2, t.t3)
    case Palette => PaletteArgv(t.t3, t.t4)
    case ListGeo => ListGeoArgv(t.t3)
    case GeoTifCp => GeoTifCpArgv(t.t5, t.t4, outfile)
  }

  /** The commands of the started stages, in order. */
  function Commands(started: seq<Stage>, gcpArgs: seq<string>, image: Option<string>, outfile: Option<string>, t: Temps): (r: seq<seq<string>>)
    ensures |r| == |started|
    ensures forall k :: 0 <= k < |r| ==> r[k] == Command(started[k], gcpArgs, OrEmpty(image), OrEmpty(outfile), t)
  {
    seq(|started|, k requires 0 <= k < |started| => Command(started[k], gcpArgs, OrEmpty(image), OrEmpty(outfile), t))
  }

  // ---------------------------------------------------------------------------
  // The function as written

  /** Start a stage's tool and wait for it. */
  function Exec(e: Env, run: Run, s: Stage, dst: string): Env {
    Env(if run.writes then e.fs + {dst} else e.fs, e.bound, e.started + [s])
  }

  /** The inner try (gdalwarp tmp1 -> tmp2, then gdal_translate tmp2 -> tmp3)
      and its finally, which removes tmp2 on every path. */
  function WarpAndTile(e: Env, t: Temps, tools: Tools): Outcome
  {
    var e1 := Exec(e, tools.warp, Warp, t.t2);
    var o :=
      if tools.warp.code != 0 then Outcome(e1, Some(StageFailed(Warp, tools.warp.code)))
      else
        var e2 := Exec(e1, tools.tile, Tile, t.t3);
        if tools.tile.code != 0 then Outcome(e2, Some(StageFailed(Tile, tools.tile.code)))
        else Outcome(e2, None);
    o.(env := o.env.(fs := o.env.fs - {t.t2}))
  }

  /** The outer try block. tmp1 is bound before it; tmp2, tmp3 and tmp4 after
      the first gdal_translate; tmp5 after convert, when it is also created. */
  function TryBlock(image: Option<string>, outfile: Option<string>, t: Temps, tools: Tools, e: Env): Outcome {
    if image.None? then Outcome(e, Some(NoneArgument(Translate)))
    else
      var e1 := Exec(e, tools.translate, Translate, t.t1);
      if tools.translate.code != 0 then Outcome(e1, Some(StageFailed(Translate, tools.translate.code)))
      else
        var e2 := e1.(bound := e1.bound + {Tmp2, Tmp3, Tmp4});
        var inner := WarpAndTile(e2, t, tools);
        if inner.raised.Some? then inner
        else
          var e3 := Exec(inner.env, tools.palette, Palette, t.t4);
          if tools.palette.code != 0 then Outcome(e3, Some(StageFailed(Palette, tools.palette.code)))
          else
            var e4 := e3.(bound := e3.bound + {Tmp5}, fs := e3.fs + {t.t5});
            var e5 := Exec(e4, tools.listgeo, ListGeo, t.t5);
            if tools.listgeo.code != 0 then Outcome(e5, Some(StageFailed(ListGeo, tools.listgeo.code)))
            else if outfile.None? then Outcome(e5, Some(NoneArgument(GeoTifCp)))
            else
              var e6 := Exec(e5, tools.geotifcp, GeoTifCp, outfile.value);
              if tools.geotifcp.code != 0 then Outcome(e6, Some(StageFailed(GeoTifCp, tools.geotifcp.code)))
              else Outcome(e6, None)
  }

  /** The outer finally: visit the names in order, removing each one's file if
      it exists; a name not yet bound raises NameError, which replaces the
      pending exception and skips the rest. */
  function Sweep(e: Env, names: seq<Temp>, t: Temps, pending: Option<Error>): Exit
    decreases |names|
  {
    if names == [] then Exit(e.fs, pending, e.started)
    else if names[0] !in e.bound then Exit(e.fs, Some(UnboundName(names[0])), e.started)
    else Sweep(e.(fs := e.fs - {PathOf(t, names[0])}), names[1..], t, pending)
  }

  /** Lines 121-178. */
  function Stages(image: Option<string>, outfile: Option<string>, t: Temps, tools: Tools, fs: set<string>): Exit {
    var o := TryBlock(image, outfile, t, tools, Env(fs, {Tmp1}, []));
    Sweep(o.env, SweepOrder, t, o.raised)
  }

  // ---------------------------------------------------------------------------
  // Reference definitions

  /** What the cleanup results assume of the five names tempfile.mktemp
      returned. That none of them exists is mktemp's own promise. That they are
      pairwise distinct and none is the output path is an assumption: mktemp
      does not promise it, since no file is created between the draws. */
  predicate Fresh(t: Temps, outfile: Option<string>, fs: set<string>) {
    && t.t1 != t.t2 && t.t1 != t.t3 && t.t1 != t.t4 && t.t1 != t.t5
    && t.t2 != t.t3 && t.t2 != t.t4 && t.t2 != t.t5
    && t.t3 != t.t4 && t.t3 != t.t5
    && t.t4 != t.t5
    && t.t1 !in fs && t.t2 !in fs && t.t3 !in fs && t.t4 !in fs && t.t5 !in fs
    && (outfile.Some? ==> !IsTemp(t, outfile.value))
  }

  predicate IsTemp(t: Temps, p: string) {
    p == t.t1 || p == t.t2 || p == t.t3 || p == t.t4 || p == t.t5
  }

  /** A stage's argument vector holds None (image or output path not known). */
  predicate NoneArgumentAt(s: Stage, image: Option<string>, outfile: Option<string>) {
    (s == Translate && image.None?) || (s == GeoTifCp && outfile.None?)
  }

  predicate Fails(s: Stage, image: Option<string>, outfile: Option<string>, tools: Tools) {
    NoneArgumentAt(s, image, outfile) || RunOf(tools, s).code != 0
  }

  /** The position in `order` of its first failing stage; |order| when none fails. */
  function FirstFailing(order: seq<Stage>, image: Option<string>, outfile: Option<string>, tools: Tools): (k: nat)
    ensures k <= |order|
    decreases |order|
  {
    if order == [] then 0
    else if Fails(order[0], image, outfile, tools) then 0
    else 1 + FirstFailing(order[1..], image, outfile, tools)
  }

  /** The exception the failing stage itself raises. */
  function OwnError(s: Stage, image: Option<string>, outfile: Option<string>, tools: Tools): Error {
    if NoneArgumentAt(s, image, outfile) then NoneArgument(s) else StageFailed(s, RunOf(tools, s).code)
  }

  /** The exception that escapes when stage s is the first to fail: the outer
      finally reaches tmp3 unbound after a failure before line 133, and tmp5
      unbound after one before line 149. */
  function Escaping(s: Stage, image: Option<string>, outfile: Option<string>, tools: Tools): Error {
    match s
    case Translate => UnboundName(Tmp3)
    case Warp => UnboundName(Tmp5)
    case Tile => UnboundName(Tmp5)
    case Palette => UnboundName(Tmp5)
    case ListGeo => OwnError(s, image, outfile, tools)
    case GeoTifCp => OwnError(s, image, outfile, tools)
  }

  /** How many commands are started: up to and including the first failing
      stage, unless that stage fails before its process starts. */
  function Started(image: Option<string>, outfile: Option<string>, tools: Tools): nat {
    var k := FirstFailing(StageOrder, image, outfile, tools);
    if k == |StageOrder| then k
    else if NoneArgumentAt(StageOrder[k], image, outfile) then k
    else k + 1
  }

  // ---------------------------------------------------------------------------
  // Properties of the pieces

  /** The inner finally removes tmp2 on every path, touches no path other than
      tmp2 and tmp3, and binds no name. */
  lemma WarpAndTileFrame(e: Env, t: Temps, tools: Tools)
    ensures var o := WarpAndTile(e, t, tools);
            && t.t2 !in o.env.fs
            && (forall p :: p != t.t2 && p != t.t3 ==> (p in o.env.fs <==> p in e.fs))
            && o.env.bound == e.bound
  {
  }

  /** FirstFailing is the position of the first failing stage: every stage
      before it succeeds, and it fails unless it is past the end. */
  lemma {:induction false} FirstFailingMinimal(order: seq<Stage>, image: Option<string>, outfile: Option<string>, tools: Tools)
    ensures var k := FirstFailing(order, image, outfile, tools);
            && k <= |order|
            && (forall j :: 0 <= j < k ==> !Fails(order[j], image, outfile, tools))
            && (k < |order| ==> Fails(order[k], image, outfile, tools))
    decreases |order|
  {
    if order != [] && !Fails(order[0], image, outfile, tools) {
      FirstFailingMinimal(order[1..], image, outfile, tools);
      var k := FirstFailing(order, image, outfile, tools);
      forall j | 0 <= j < k ensures !Fails(order[j], image, outfile, tools) {
        if j > 0 { assert order[j] == order[1..][j - 1]; }
      }
    }
  }

  /** The outer finally only removes files of the names it visits, removes the
      file of every name it reaches, and raises NameError for the first unbound
      name in place of the pending exception. */
  lemma {:induction false} SweepRemoves(e: Env, names: seq<Temp>, t: Temps, pending: Option<Error>)
    ensures var x := Sweep(e, names, t, pending);
            && x.started == e.started
            && x.fs <= e.fs
            && (forall p :: p in e.fs && p !in x.fs ==> p in PathsOf(t, names))
            && (forall k :: 0 <= k < |names| && (forall j :: 0 <= j <= k ==> names[j] in e.bound) ==> PathOf(t, names[k]) !in x.fs)
    decreases |names|
  {
    if names != [] && names[0] in e.bound {
      var e' := e.(fs := e.fs - {PathOf(t, names[0])});
      SweepRemoves(e', names[1..], t, pending);
      assert PathsOf(t, names) == {PathOf(t, names[0])} + PathsOf(t, names[1..]);
      var x := Sweep(e, names, t, pending);
      forall k | 0 <= k < |names| && (forall j :: 0 <= j <= k ==> names[j] in e.bound) ensures PathOf(t, names[k]) !in x.fs {
        if k > 0 {
          assert names[k] == names[1..][k - 1];
          forall j | 0 <= j <= k - 1 ensures names[1..][j] in e'.bound {
            assert names[1..][j] == names[j + 1];
          }
        }
      }
    }
  }

  /** The exception leaving the outer finally: the pending one when every
      visited name is bound, otherwise NameError for the first unbound name. */
  lemma {:induction false} SweepError(e: Env, names: seq<Temp>, t: Temps, pending: Option<Error>)
    ensures var x := Sweep(e, names, t, pending);
            && ((forall k :: 0 <= k < |names| ==> names[k] in e.bound) ==> x.error == pending)
            && (forall k :: 0 <= k < |names| && names[k] !in e.bound && (forall j :: 0 <= j < k ==> names[j] in e.bound) ==>
                  x.error == Some(UnboundName(names[k])))
    decreases |names|
  {
    if names != [] && names[0] in e.bound {
      var e' := e.(fs := e.fs - {PathOf(t, names[0])});
      SweepError(e', names[1..], t, pending);
      var x := Sweep(e, names, t, pending);
      if forall k :: 0 <= k < |names| ==> names[k] in e.bound {
        assert forall k :: 0 <= k < |names[1..]| ==> names[1..][k] == names[k + 1];
      }
      forall k | 0 <= k < |names| && names[k] !in e.bound && (forall j :: 0 <= j < k ==> names[j] in e.bound)
        ensures x.error == Some(UnboundName(names[k]))
      {
        assert k > 0;
        assert names[1..][k - 1] == names[k];
        forall j | 0 <= j < k - 1 ensures names[1..][j] in e'.bound {
          assert names[1..][j] == names[j + 1];
        }
      }
    }
  }

  lemma FirstFailingUnrolled(image: Option<string>, outfile: Option<string>, tools: Tools)
    ensures FirstFailing(StageOrder, image, outfile, tools) ==
      if Fails(Translate, image, outfile, tools) then 0
      else if Fails(Warp, image, outfile, tools) then 1
      else if Fails(Tile, image, outfile, tools) then 2
      else if Fails(Palette, image, outfile, tools) then 3
      else if Fails(ListGeo, image, outfile, tools) then 4
      else if Fails(GeoTifCp, image, outfile, tools) then 5
      else 6
  {
    var o := StageOrder;
    assert o[1..] == [Warp, Tile, Palette, ListGeo, GeoTifCp];
    assert o[1..][1..] == [Tile, Palette, ListGeo, GeoTifCp];
    assert o[1..][1..][1..] == [Palette, ListGeo, GeoTifCp];
    assert o[1..][1..][1..][1..] == [ListGeo, GeoTifCp];
    assert o[1..][1..][1..][1..][1..] == [GeoTifCp];
    assert o[1..][1..][1..][1..][1..][1..] == [];
  }

  lemma SweepUnrolled(e: Env, t: Temps, pending: Option<Error>)
    ensures Sweep(e, SweepOrder, t, pending) ==
      if Tmp1 !in e.bound then Exit(e.fs, Some(UnboundName(Tmp1)), e.started)
      else if Tmp3 !in e.bound then Exit(e.fs - {t.t1}, Some(UnboundName(Tmp3)), e.started)
      else if Tmp4 !in e.bound then Exit(e.fs - {t.t1} - {t.t3}, Some(UnboundName(Tmp4)), e.started)
      else if Tmp5 !in e.bound then Exit(e.fs - {t.t1} - {t.t3} - {t.t4}, Some(UnboundName(Tmp5)), e.started)
      else Exit(e.fs - {t.t1} - {t.t3} - {t.t4} - {t.t5}, pending, e.started)
  {
    var o := SweepOrder;
    assert o[1..] == [Tmp3, Tmp4, Tmp5];
    assert o[1..][1..] == [Tmp4, Tmp5];
    assert o[1..][1..][1..] == [Tmp5];
    assert o[1..][1..][1..][1..] == [];
  }

  /** Every temporary file that exists belongs to a bound name, tmp2 never
      survives, and the names are bound in the order the code binds them. */
  predicate Tidy(e: Env, t: Temps) {
    && t.t2 !in e.fs
    && Tmp1 in e.bound
    && (Tmp4 in e.bound <==> Tmp3 in e.bound)
    && (Tmp5 in e.bound ==> Tmp3 in e.bound)
    && (t.t3 in e.fs || t.t4 in e.fs ==> Tmp3 in e.bound)
    && (t.t5 in e.fs ==> Tmp5 in e.bound)
  }

  /** The stages the try block starts form a prefix of StageOrder ... */
  lemma TryBlockStartedPrefix(image: Option<string>, outfile: Option<string>, t: Temps, tools: Tools, fs: set<string>)
    ensures var o := TryBlock(image, outfile, t, tools, Env(fs, {Tmp1}, []));
            |o.env.started| <= |StageOrder| && o.env.started == StageOrder[..|o.env.started|]
  {
    var P := StageOrder;
    assert P[..0] == [];
    assert P[..1] == [Translate];
    assert P[..2] == [Translate, Warp];
    assert P[..3] == [Translate, Warp, Tile];
    assert P[..4] == [Translate, Warp, Tile, Palette];
    assert P[..5] == [Translate, Warp, Tile, Palette, ListGeo];
    assert P[..6] == P;
  }

  /** ... of the length Started. */
  lemma TryBlockStartedCount(image: Option<string>, outfile: Option<string>, t: Temps, tools: Tools, fs: set<string>)
    ensures var o := TryBlock(image, outfile, t, tools, Env(fs, {Tmp1}, []));
            |o.env.started| == Started(image, outfile, tools)
  {
    FirstFailingUnrolled(image, outfile, tools);
  }

  /** The stages the try block starts: those up to the first failure, in order. */
  lemma TryBlockStarted(image: Option<string>, outfile: Option<string>, t: Temps, tools: Tools, fs: set<string>)
    ensures var o := TryBlock(image, outfile, t, tools, Env(fs, {Tmp1}, []));
            o.env.started == StageOrder[..Started(image, outfile, tools)]
  {
    TryBlockStartedPrefix(image, outfile, t, tools, fs);
    TryBlockStartedCount(image, outfile, t, tools, fs);
  }

  /** The exception raised inside the try block is the first failing stage's own. */
  lemma TryBlockRaised(image: Option<string>, outfile: Option<string>, t: Temps, tools: Tools, fs: set<string>)
    ensures var o := TryBlock(image, outfile, t, tools, Env(fs, {Tmp1}, []));
            var k := FirstFailing(StageOrder, image, outfile, tools);
            o.raised == (if k == |StageOrder| then None else Some(OwnError(StageOrder[k], image, outfile, tools)))
  {
    FirstFailingUnrolled(image, outfile, tools);
  }

  /** The names bound on leaving the try block: tmp1 always, tmp2 .. tmp4 once
      the first gdal_translate has succeeded, tmp5 once convert has too. */
  lemma TryBlockBound(image: Option<string>, outfile: Option<string>, t: Temps, tools: Tools, fs: set<string>)
    ensures var o := TryBlock(image, outfile, t, tools, Env(fs, {Tmp1}, []));
            var translated := !Fails(Translate, image, outfile, tools);
            && Tmp1 in o.env.bound
            && (Tmp2 in o.env.bound <==> translated)
            && (Tmp3 in o.env.bound <==> translated)
            && (Tmp4 in o.env.bound <==> translated)
            && (Tmp5 in o.env.bound <==>
                  translated && !Fails(Warp, image, outfile, tools) && !Fails(Tile, image, outfile, tools) && !Fails(Palette, image, outfile, tools))
  {
  }

  /** The try block leaves every path other than the temporary files and the
      output file as it found it. */
  lemma TryBlockOthers(image: Option<string>, outfile: Option<string>, t: Temps, tools: Tools, fs: set<string>)
    ensures var o := TryBlock(image, outfile, t, tools, Env(fs, {Tmp1}, []));
            forall p :: !IsTemp(t, p) && (outfile.None? || p != outfile.value) ==> (p in o.env.fs <==> p in fs)
  {
  }

  /** The output file exists after the try block exactly when it existed
      before or geotifcp was started and wrote it. */
  lemma TryBlockOutput(image: Option<string>, outfile: Option<string>, t: Temps, tools: Tools, fs: set<string>)
    requires Fresh(t, outfile, fs)
    ensures var o := TryBlock(image, outfile, t, tools, Env(fs, {Tmp1}, []));
            outfile.Some? ==> (outfile.value in o.env.fs <==> outfile.value in fs || (GeoTifCp in o.env.started && tools.geotifcp.writes))
  {
  }

  /** The try block leaves its frame tidy, whatever fails. */
  lemma TryBlockTidy(image: Option<string>, outfile: Option<string>, t: Temps, tools: Tools, fs: set<string>)
    requires Fresh(t, outfile, fs)
    ensures Tidy(TryBlock(image, outfile, t, tools, Env(fs, {Tmp1}, [])).env, t)
  {
  }

  /** From a tidy frame the outer finally removes every temporary file and
      nothing else. */
  lemma SweepCleans(e: Env, t: Temps, pending: Option<Error>)
    requires Tidy(e, t)
    ensures var x := Sweep(e, SweepOrder, t, pending);
            && t.t1 !in x.fs && t.t2 !in x.fs && t.t3 !in x.fs && t.t4 !in x.fs && t.t5 !in x.fs
            && (forall p :: !IsTemp(t, p) ==> (p in x.fs <==> p in e.fs))
  {
    SweepUnrolled(e, t, pending);
  }

  /** Whichever stage fails, no temporary file is left behind, and no path
      other than the output file was created or removed. */
  lemma StagesCleanUp(image: Option<string>, outfile: Option<string>, t: Temps, tools: Tools, fs: set<string>)
    requires Fresh(t, outfile, fs)
    ensures var x := Stages(image, outfile, t, tools, fs);
            && t.t1 !in x.fs && t.t2 !in x.fs && t.t3 !in x.fs && t.t4 !in x.fs && t.t5 !in x.fs
            && (forall p :: !IsTemp(t, p) && (outfile.None? || p != outfile.value) ==> (p in x.fs <==> p in fs))
            && (outfile.Some? ==>
                  (outfile.value in x.fs <==> outfile.value in fs || (Started(image, outfile, tools) == |StageOrder| && tools.geotifcp.writes)))
  {
    var o := TryBlock(image, outfile, t, tools, Env(fs, {Tmp1}, []));
    TryBlockTidy(image, outfile, t, tools, fs);
    TryBlockOthers(image, outfile, t, tools, fs);
    TryBlockOutput(image, outfile, t, tools, fs);
    TryBlockStarted(image, outfile, t, tools, fs);
    SweepCleans(o.env, t, o.raised);
    var n := Started(image, outfile, tools);
    assert GeoTifCp in StageOrder[..n] <==> n == |StageOrder| by {
      var P := StageOrder;
      if n < |StageOrder| {
        assert forall j :: 0 <= j < n ==> P[..n][j] != GeoTifCp;
      } else {
        assert P[..n][5] == GeoTifCp;
      }
    }
  }

  /** The exception that escapes: none on success, the stage's own for
      listgeo and geotifcp, and a NameError on tmp3 or tmp5 for the four
      stages before tmp5 is bound. */
  lemma StagesError(image: Option<string>, outfile: Option<string>, t: Temps, tools: Tools, fs: set<string>)
    ensures var k := FirstFailing(StageOrder, image, outfile, tools);
            Stages(image, outfile, t, tools, fs).error == if k == |StageOrder| then None else Some(Escaping(StageOrder[k], image, outfile, tools))
  {
    var o := TryBlock(image, outfile, t, tools, Env(fs, {Tmp1}, []));
    TryBlockRaised(image, outfile, t, tools, fs);
    TryBlockBound(image, outfile, t, tools, fs);
    SweepUnrolled(o.env, t, o.raised);
    FirstFailingUnrolled(image, outfile, tools);
  }

  /** The stages started are those up to the first failure, in order. */
  lemma StagesStarted(image: Option<string>, outfile: Option<string>, t: Temps, tools: Tools, fs: set<string>)
    ensures Stages(image, outfile, t, tools, fs).started == StageOrder[..Started(image, outfile, tools)]
  {
    var o := TryBlock(image, outfile, t, tools, Env(fs, {Tmp1}, []));
    TryBlockStarted(image, outfile, t, tools, fs);
    SweepRemoves(o.env, SweepOrder, t, o.raised);
  }

  /** With an image to georeference, the first command started is the first
      gdal_translate. */
  lemma TranslateStartsFirst(image: Option<string>, outfile: Option<string>, t: Temps, tools: Tools, fs: set<string>)
    requires image.Some?
    ensures var x := Stages(image, outfile, t, tools, fs);
            |x.started| >= 1 && x.started[0] == Translate
  {
    StagesStarted(image, outfile, t, tools, fs);
    FirstFailingUnrolled(image, outfile, tools);
  }

  /** A failure of the first gdal_translate, gdalwarp, the tiling gdal_translate
      or convert never surfaces: a NameError from the outer finally replaces it. */
  lemma StageErrorMasked(image: Option<string>, outfile: Option<string>, t: Temps, tools: Tools, fs: set<string>)
    requires FirstFailing(StageOrder, image, outfile, tools) < 4
    ensures var s := StageOrder[FirstFailing(StageOrder, image, outfile, tools)];
            var x := Stages(image, outfile, t, tools, fs);
            && x.error.Some? && x.error.value.UnboundName?
            && x.error != Some(OwnError(s, image, outfile, tools))
  {
    StagesError(image, outfile, t, tools, fs);
  }
}
