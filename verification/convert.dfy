/** convert_ozi_map end to end: the calibration loop, the projector round
    trip, the -gcp argument vector and the staged conversion. The projector
    (the external `proj` process) is only what it printed and its exit status. */
module Converter {
  import opened Failures
  import opened Text
  import opened Calibration
  import opened Gcp
  import opened Pipeline

  /** What `proj` printed, one string per output line, and its exit status. */
  datatype Projector = Projector(out: seq<string>, code: int)

  /** How convert_ozi_map ends, together with the argument vectors of the
      commands it started. */
  datatype Conversion = Conversion(exit: Exit, commands: seq<seq<string>>)

  /** The -a_srs argument and the -gcp groups built from the projector output. */
  function GcpArgs(pixels: seq<Pixel>, out: seq<string>): Result<seq<string>> {
    Prepend(["-a_srs", Projection], Groups(pixels, out))
  }

  /** convert_ozi_map(mapfile, imgfile, outfile), where `lines` are the lines of
      the calibration file, `fs` the paths that exist, `t` the names mktemp
      returns and `tools` the runs of the six external tools. */
  function ConvertOziMap(mapfile: string, lines: seq<string>, imgfile: Option<string>, outfile: Option<string>,
                         proj: Projector, t: Temps, tools: Tools, fs: set<string>): Conversion {
    var c := Parse(mapfile, lines, imgfile, fs);
    if c.Fail? then Conversion(Exit(fs, Some(c.error), []), [])
    else
      var args := GcpArgs(c.value.pixels, proj.out);
      if args.Fail? then Conversion(Exit(fs, Some(args.error), []), [])
      else if proj.code != 0 then Conversion(Exit(fs, Some(ProjFailed(proj.code)), []), [])
      else
        var x := Stages(c.value.image, outfile, t, tools, fs);
        Conversion(x, Commands(x.started, args.value, c.value.image, outfile, t))
  }

  /** The projector output pairs up with the retained records: no more lines
      than records, and each line holds exactly two tokens. */
  predicate Answers(out: seq<string>, records: nat) {
    |out| <= records && forall k :: 0 <= k < |out| ==> |Tokens(out[k])| == 2
  }

  // ---------------------------------------------------------------------------
  // Properties

  /** With an explicit image, convert_ozi_map fails before starting any of
      the six pipeline stages (proj itself is already running) exactly when a kept record is short, the projector output does not pair
      up with the records, or proj failed; the file system is then unchanged
      and the error is the first of these, in that order. */
  lemma EarlyFailure(mapfile: string, lines: seq<string>, imgfile: Option<string>, outfile: Option<string>,
                     proj: Projector, t: Temps, tools: Tools, fs: set<string>)
    requires !NotGiven(imgfile)
    ensures var r := ConvertOziMap(mapfile, lines, imgfile, outfile, proj, t, tools, fs);
            var R := Retained(lines);
            var early := !Complete(R) || !Answers(proj.out, |R|) || proj.code != 0;
            && (early ==> r.commands == [] && r.exit.started == [] && r.exit.fs == fs)
            && (!Complete(R) ==> r.exit.error == ShortRecordError(R))
            && (Complete(R) && !Answers(proj.out, |R|) ==> r.exit.error.Some? && (r.exit.error.value.UnpackError? || r.exit.error.value == PopFromEmpty))
            && (Complete(R) && Answers(proj.out, |R|) && proj.code != 0 ==> r.exit.error == Some(ProjFailed(proj.code)))
            && (!early ==> r.exit == Stages(imgfile, outfile, t, tools, fs))
  {
    ParseWithImage(mapfile, lines, imgfile, fs);
    ParseKeepsOrder(mapfile, lines, imgfile, fs);
  }

  /** Given fresh temporary names, convert_ozi_map leaves no temporary file
      behind and changes no path other than the output file, however it ends. */
  lemma NoTemporaryLeft(mapfile: string, lines: seq<string>, imgfile: Option<string>, outfile: Option<string>,
                        proj: Projector, t: Temps, tools: Tools, fs: set<string>)
    requires Fresh(t, outfile, fs)
    ensures var x := ConvertOziMap(mapfile, lines, imgfile, outfile, proj, t, tools, fs).exit;
            && t.t1 !in x.fs && t.t2 !in x.fs && t.t3 !in x.fs && t.t4 !in x.fs && t.t5 !in x.fs
            && (forall p :: !IsTemp(t, p) && (outfile.None? || p != outfile.value) ==> (p in x.fs <==> p in fs))
  {
    var c := Parse(mapfile, lines, imgfile, fs);
    if c.Ok? {
      StagesCleanUp(c.value.image, outfile, t, tools, fs);
    }
  }

  /** With an explicit image and a projector that answers, the first command
      started is gdal_translate on the -gcp groups of the kept records. */
  lemma FirstCommandIsTranslate(mapfile: string, lines: seq<string>, imgfile: Option<string>, outfile: Option<string>,
                                proj: Projector, t: Temps, tools: Tools, fs: set<string>)
    requires !NotGiven(imgfile)
    requires Complete(Retained(lines)) && Answers(proj.out, |Retained(lines)|) && proj.code == 0
    ensures var r := ConvertOziMap(mapfile, lines, imgfile, outfile, proj, t, tools, fs);
            var g := Groups(PixelsOf(Retained(lines)), proj.out);
            && g.Ok?
            && |r.commands| >= 1
            && r.commands[0] == TranslateArgv(["-a_srs", Projection] + g.value, imgfile.value, t.t1)
  {
    ParseWithImage(mapfile, lines, imgfile, fs);
    ParseRetained(mapfile, lines, imgfile, fs);
    TranslateStartsFirst(imgfile, outfile, t, tools, fs);
  }

  /** Where the pieces of gdal_translate's argument vector sit. */
  lemma TranslateLayout(g: seq<string>, image: string, dst: string, k: nat)
    ensures var cmd := TranslateArgv(["-a_srs", Projection] + g, image, dst);
            && |cmd| == 5 + |g|
            && cmd[..3] == ["gdal_translate", "-a_srs", Projection]
            && cmd[3 + |g|..] == [image, dst]
            && (5 * k + 5 <= |g| ==> cmd[3 + 5 * k..8 + 5 * k] == g[5 * k..5 * k + 5])
  {
    var cmd := TranslateArgv(["-a_srs", Projection] + g, image, dst);
    assert cmd == ["gdal_translate", "-a_srs", Projection] + g + [image, dst];
  }

  /** The first command is gdal_translate with the projection, then one -gcp
      group per projector line, pairing the k-th line's two tokens with the
      pixel pair of the k-th kept record, then the image and tmp1. */
  lemma FirstCommand(mapfile: string, lines: seq<string>, imgfile: Option<string>, outfile: Option<string>,
                     proj: Projector, t: Temps, tools: Tools, fs: set<string>, k: nat)
    requires !NotGiven(imgfile)
    requires Complete(Retained(lines)) && Answers(proj.out, |Retained(lines)|) && proj.code == 0
    requires k < |proj.out|
    ensures var r := ConvertOziMap(mapfile, lines, imgfile, outfile, proj, t, tools, fs);
            var R := Retained(lines);
            var n := |proj.out|;
            && |r.commands| >= 1
            && |r.commands[0]| == 5 + 5 * n
            && r.commands[0][..3] == ["gdal_translate", "-a_srs", Projection]
            && r.commands[0][3 + 5 * n..] == [imgfile.value, t.t1]
            && r.commands[0][3 + 5 * k..8 + 5 * k] == ["-gcp", R[k][2], R[k][3], Tokens(proj.out[k])[0], Tokens(proj.out[k])[1]]
  {
    var R := Retained(lines);
    var pixels := PixelsOf(R);
    FirstCommandIsTranslate(mapfile, lines, imgfile, outfile, proj, t, tools, fs);
    var g := Groups(pixels, proj.out).value;
    GroupAt(pixels, proj.out, k);
    TranslateLayout(g, imgfile.value, t.t1, k);
  }
}
