/** The calibration-file loop of convert_ozi_map: image-name pick-up from the
    second line, selection of `Point` records, comma splitting with per-field
    strip, the sparse-record filter, positional field extraction and the
    "lon lat" line written to the projector for every retained record. */
module Calibration {
  import opened Failures
  import opened Text
  import opened PathNames

  /** The pixel coordinates of a retained record, kept as the record's text. */
  datatype Pixel = Pixel(x: string, y: string)

  /** What the loop leaves behind: the image path (possibly still absent), the
      retained pixel pairs and the coordinate lines written to the projector. */
  datatype Calib = Calib(image: Option<string>, pixels: seq<Pixel>, coords: seq<string>)

  /** The loop's variables: the counter i (which the field-strip loop also
      assigns), imgfile, points, and the lines written to the projector so far. */
  datatype State = State(counter: nat, image: Option<string>, pixels: seq<Pixel>, coords: seq<string>)

  const RecordTag := "Point"

  /** The highest field read is d[11]. */
  const FieldCount := 12

  /** The order in which a retained record's fields are read. */
  const ReadOrder: seq<nat> := [2, 3, 8, 6, 7, 11, 9, 10]

  /** Python's `not imgfile`. */
  predicate NotGiven(image: Option<string>) {
    image.None? || image.value == ""
  }

  predicate IsRecord(line: string) {
    StartsWith(line, RecordTag)
  }

  /** line.split(",") with every field stripped. */
  function Fields(line: string): seq<string> {
    var parts := Split(line, ',');
    seq(|parts|, k requires 0 <= k < |parts| => Strip(parts[k]))
  }

  /** Records the loop skips without error: fewer than three fields or an empty pixel-X. */
  predicate Sparse(d: seq<string>) {
    |d| < 3 || d[2] == ""
  }

  /** A line that contributes a control point (or fails trying). */
  predicate Kept(line: string) {
    IsRecord(line) && !Sparse(Fields(line))
  }

  /** The index whose read fails on a kept record of n < 12 fields: the first
      field, in read order, that lies past the end of the record. */
  function MissingIndex(n: nat): (k: nat)
    requires 3 <= n < FieldCount
    ensures n <= k < FieldCount
    ensures exists j :: 0 <= j < |ReadOrder| && ReadOrder[j] == k && forall i :: 0 <= i < j ==> ReadOrder[i] < n
  {
    if n == 3 then
      assert ReadOrder[1] == 3 && ReadOrder[0] < n;
      3
    else if n <= 8 then
      assert ReadOrder[2] == 8 && ReadOrder[0] < n && ReadOrder[1] < n;
      8
    else
      assert ReadOrder[5] == 11 && forall i :: 0 <= i < 5 ==> ReadOrder[i] < n;
      11
  }

  /** Degrees, "d", minutes and the hemisphere letter, as the projector reads them. */
  function DegMin(degrees: string, minutes: string, hemisphere: string): string {
    degrees + "d" + minutes + hemisphere
  }

  /** The line written to the projector for a record: longitude, one space, latitude. */
  function CoordLine(d: seq<string>): string
    requires |d| >= FieldCount
  {
    DegMin(d[9], d[10], d[11]) + " " + DegMin(d[6], d[7], d[8]) + "\n"
  }

  /** The image named on a line: its stripped Windows base name, beside the calibration file. */
  function ImagePath(mapfile: string, line: string): string {
    PosixJoin(DirName(mapfile), NtBaseName(Strip(line)))
  }

  /** os.access(p, os.F_OK) over the set of existing paths: the empty path never exists. */
  predicate Accessible(fs: set<string>, p: string) {
    p != "" && p in fs
  }

  /** The pick-up at the top of the loop body, with i already incremented. */
  function PickImage(image: Option<string>, i: nat, mapfile: string, line: string, fs: set<string>): Result<Option<string>> {
    if NotGiven(image) && i == 2 then
      var p := ImagePath(mapfile, line);
      if Accessible(fs, p) then Ok(Some(p)) else Fail(MissingImageFile(p))
    else Ok(image)
  }

  /** One pass of the loop body over one line. */
  function Step(st: State, line: string, mapfile: string, fs: set<string>): Result<State> {
    var i := st.counter + 1;
    var image :- PickImage(st.image, i, mapfile, line, fs);
    if !IsRecord(line) then Ok(st.(counter := i, image := image))
    else RecordStep(st.(image := image), Fields(line))
  }

  /** The rest of the loop body for a `Point` record with stripped fields d:
      the strip loop leaves the counter at len(d) - 1. */
  function RecordStep(st: State, d: seq<string>): (r: Result<State>)
    requires |d| >= 1
    ensures r.Ok? ==> r.value.image == st.image && r.value.counter == |d| - 1
  {
    if Sparse(d) then Ok(st.(counter := |d| - 1))
    else if |d| < FieldCount then Fail(FieldIndexError(MissingIndex(|d|)))
    else Ok(State(|d| - 1, st.image, st.pixels + [Pixel(d[2], d[3])], st.coords + [CoordLine(d)]))
  }

  function ParseLines(st: State, lines: seq<string>, mapfile: string, fs: set<string>): Result<State>
    decreases |lines|
  {
    if lines == [] then Ok(st)
    else
      var st' :- Step(st, lines[0], mapfile, fs);
      ParseLines(st', lines[1..], mapfile, fs)
  }

  /** The calibration half of convert_ozi_map: `fs` is the set of existing paths. */
  function Parse(mapfile: string, lines: seq<string>, imgfile: Option<string>, fs: set<string>): Result<Calib> {
    var st :- ParseLines(State(0, imgfile, [], []), lines, mapfile, fs);
    Ok(Calib(st.image, st.pixels, st.coords))
  }

  // ---------------------------------------------------------------------------
  // Reference definitions: which records contribute, independent of the loop.

  /** The stripped fields of the kept records, in file order. */
  function Retained(lines: seq<string>): (r: seq<seq<string>>)
    ensures forall k :: 0 <= k < |r| ==> !Sparse(r[k])
    decreases |lines|
  {
    if lines == [] then []
    else (if Kept(lines[0]) then [Fields(lines[0])] else []) + Retained(lines[1..])
  }

  predicate Complete(records: seq<seq<string>>) {
    forall k :: 0 <= k < |records| ==> |records[k]| >= FieldCount
  }

  function PixelsOf(records: seq<seq<string>>): (r: seq<Pixel>)
    requires Complete(records)
    ensures |r| == |records|
    ensures forall k :: 0 <= k < |r| ==> r[k] == Pixel(records[k][2], records[k][3])
    decreases |records|
  {
    if records == [] then [] else [Pixel(records[0][2], records[0][3])] + PixelsOf(records[1..])
  }

  function CoordsOf(records: seq<seq<string>>): (r: seq<string>)
    requires Complete(records)
    ensures |r| == |records|
    ensures forall k :: 0 <= k < |r| ==> r[k] == CoordLine(records[k])
    decreases |records|
  {
    if records == [] then [] else [CoordLine(records[0])] + CoordsOf(records[1..])
  }

  /** The error of the first kept record that is too short, if any. */
  function ShortRecordError(records: seq<seq<string>>): (e: Option<Error>)
    requires forall k :: 0 <= k < |records| ==> !Sparse(records[k])
    ensures e.None? <==> Complete(records)
    ensures e.Some? ==> e.value.FieldIndexError?
    decreases |records|
  {
    if records == [] then None
    else if |records[0]| < FieldCount then
      assert !Sparse(records[0]);
      Some(FieldIndexError(MissingIndex(|records[0]|)))
    else ShortRecordError(records[1..])
  }

  // ---------------------------------------------------------------------------
  // Properties

  lemma {:induction false} RetainedAppend(a: seq<string>, b: seq<string>)
    ensures Retained(a + b) == Retained(a) + Retained(b)
    decreases |a|
  {
    if a != [] {
      var head := if Kept(a[0]) then [Fields(a[0])] else [];
      assert (a + b)[0] == a[0] && (a + b)[1..] == a[1..] + b;
      assert Retained(a + b) == head + Retained(a[1..] + b);
      assert Retained(a) == head + Retained(a[1..]);
      RetainedAppend(a[1..], b);
      ConcatAssoc(head, Retained(a[1..]), Retained(b));
    } else {
      assert a + b == b;
    }
  }

  /** One loop pass keeps the image the pick-up chose, fails with the
      pick-up's error, and leaves the counter at i or at len(d) - 1. */
  lemma StepImage(st: State, line: string, mapfile: string, fs: set<string>)
    ensures var pick := PickImage(st.image, st.counter + 1, mapfile, line, fs);
            var r := Step(st, line, mapfile, fs);
            && (pick.Fail? ==> r == Fail(pick.error))
            && (r.Ok? ==> pick.Ok? && r.value.image == pick.value)
            && (r.Ok? && !IsRecord(line) ==> r.value.counter == st.counter + 1)
            && (r.Ok? && IsRecord(line) ==> r.value.counter == |Fields(line)| - 1)
  {
  }

  /** One loop pass appends exactly one pixel pair and one coordinate line
      for a kept record with all 12 fields, and nothing for any other line. */
  lemma StepContents(st: State, line: string, mapfile: string, fs: set<string>)
    ensures var r := Step(st, line, mapfile, fs);
            var d := Fields(line);
            r.Ok? ==>
              if Kept(line) then
                && |d| >= FieldCount
                && r.value.pixels == st.pixels + [Pixel(d[2], d[3])]
                && r.value.coords == st.coords + [CoordLine(d)]
              else r.value.pixels == st.pixels && r.value.coords == st.coords
  {
  }

  /** A record in front of complete records contributes its pixel pair and
      coordinate line in front of theirs. */
  lemma ConsRecord(ps: seq<Pixel>, cs: seq<string>, d: seq<string>, R: seq<seq<string>>)
    requires |d| >= FieldCount && Complete(R)
    ensures Complete([d] + R)
    ensures ps + [Pixel(d[2], d[3])] + PixelsOf(R) == ps + PixelsOf([d] + R)
    ensures cs + [CoordLine(d)] + CoordsOf(R) == cs + CoordsOf([d] + R)
  {
    var R2 := [d] + R;
    assert R2[0] == d && R2[1..] == R;
    assert Complete(R2) by {
      forall k | 0 <= k < |R2| ensures |R2[k]| >= FieldCount {
        if k > 0 { assert R2[k] == R[k - 1]; }
      }
    }
    assert PixelsOf(R2) == [Pixel(d[2], d[3])] + PixelsOf(R);
    assert CoordsOf(R2) == [CoordLine(d)] + CoordsOf(R);
  }

  /** One loop pass followed by the rest of the loop. */
  lemma ParseLinesCons(st: State, lines: seq<string>, mapfile: string, fs: set<string>)
    requires lines != []
    ensures var s := Step(st, lines[0], mapfile, fs);
            ParseLines(st, lines, mapfile, fs) == if s.Fail? then Fail(s.error) else ParseLines(s.value, lines[1..], mapfile, fs)
  {
  }

  /** Whatever the image pick-up does, a successful loop has read every kept
      record in full and produced, in file order, one pixel pair and one
      coordinate line per kept record. */
  lemma {:induction false} ParseLinesRetained(st: State, lines: seq<string>, mapfile: string, fs: set<string>)
    ensures var r := ParseLines(st, lines, mapfile, fs);
            var R := Retained(lines);
            r.Ok? ==> Complete(R) && r.value.pixels == st.pixels + PixelsOf(R) && r.value.coords == st.coords + CoordsOf(R)
    decreases |lines|
  {
    if lines != [] && ParseLines(st, lines, mapfile, fs).Ok? {
      ParseLinesCons(st, lines, mapfile, fs);
      StepContents(st, lines[0], mapfile, fs);
      var st' := Step(st, lines[0], mapfile, fs).value;
      var R' := Retained(lines[1..]);
      ParseLinesRetained(st', lines[1..], mapfile, fs);
      if Kept(lines[0]) {
        var d := Fields(lines[0]);
        assert Retained(lines) == [d] + R';
        ConsRecord(st.pixels, st.coords, d, R');
      } else {
        assert Retained(lines) == [] + R';
        assert [] + R' == R';
      }
    } else if lines == [] {
      assert st.pixels + [] == st.pixels && st.coords + [] == st.coords;
    }
  }

  /** With the image already known, the loop never fails on the image and
      fails exactly on the first kept record that has fewer than 12 fields. */
  lemma {:induction false} ParseLinesGiven(st: State, lines: seq<string>, mapfile: string, fs: set<string>)
    requires !NotGiven(st.image)
    ensures var r := ParseLines(st, lines, mapfile, fs);
            var e := ShortRecordError(Retained(lines));
            && (r.Ok? <==> e.None?)
            && (r.Fail? ==> r.error == e.value)
            && (r.Ok? ==> r.value.image == st.image)
    decreases |lines|
  {
    if lines != [] {
      var R' := Retained(lines[1..]);
      var s := Step(st, lines[0], mapfile, fs);
      if Kept(lines[0]) {
        var d := Fields(lines[0]);
        assert Retained(lines) == [d] + R';
        assert ([d] + R')[1..] == R';
        if |d| >= FieldCount {
          ParseLinesGiven(s.value, lines[1..], mapfile, fs);
        }
      } else {
        assert Retained(lines) == R';
        ParseLinesGiven(s.value, lines[1..], mapfile, fs);
      }
    }
  }

  /** A successful parse holds exactly the pixel pairs and coordinate lines of
      the kept records. */
  lemma ParseRetained(mapfile: string, lines: seq<string>, imgfile: Option<string>, fs: set<string>)
    ensures var r := Parse(mapfile, lines, imgfile, fs);
            var R := Retained(lines);
            r.Ok? ==> Complete(R) && r.value.pixels == PixelsOf(R) && r.value.coords == CoordsOf(R)
  {
    ParseLinesRetained(State(0, imgfile, [], []), lines, mapfile, fs);
    var R := Retained(lines);
    if Parse(mapfile, lines, imgfile, fs).Ok? {
      assert [] + PixelsOf(R) == PixelsOf(R);
      assert [] + CoordsOf(R) == CoordsOf(R);
    }
  }

  /** Parse keeps file order: the k-th pixel pair and the k-th coordinate line
      both come from the k-th kept record, so the two counts are equal. */
  lemma ParseKeepsOrder(mapfile: string, lines: seq<string>, imgfile: Option<string>, fs: set<string>)
    ensures var r := Parse(mapfile, lines, imgfile, fs);
            var R := Retained(lines);
            r.Ok? ==>
              && Complete(R)
              && |r.value.pixels| == |R| == |r.value.coords|
              && (forall k :: 0 <= k < |R| ==> r.value.pixels[k] == Pixel(R[k][2], R[k][3]))
              && (forall k :: 0 <= k < |R| ==> r.value.coords[k] == CoordLine(R[k]))
  {
    ParseRetained(mapfile, lines, imgfile, fs);
  }

  /** With an explicit image the parse succeeds exactly when every kept record
      has all 12 fields, keeps that image, and otherwise reports the first short one. */
  lemma ParseWithImage(mapfile: string, lines: seq<string>, imgfile: Option<string>, fs: set<string>)
    requires !NotGiven(imgfile)
    ensures var r := Parse(mapfile, lines, imgfile, fs);
            var R := Retained(lines);
            && (r.Ok? <==> Complete(R))
            && (r.Fail? ==> r.error == ShortRecordError(R).value)
            && (r.Ok? ==> r.value.image == imgfile)
  {
    ParseLinesGiven(State(0, imgfile, [], []), lines, mapfile, fs);
  }

  /** Lines that are not `Point` records never change the outcome (given an explicit image). */
  lemma NonRecordLineIgnored(mapfile: string, a: seq<string>, line: string, b: seq<string>, imgfile: Option<string>, fs: set<string>)
    requires !IsRecord(line) && !NotGiven(imgfile)
    ensures Parse(mapfile, a + [line] + b, imgfile, fs) == Parse(mapfile, a + b, imgfile, fs)
  {
    var st := State(0, imgfile, [], []);
    RetainedAppend(a, [line]);
    RetainedAppend(a + [line], b);
    RetainedAppend(a, b);
    assert Retained([line]) == [] by {
      assert [line][1..] == [];
    }
    assert Retained(a + [line] + b) == Retained(a + b);
    ParseLinesGiven(st, a + [line] + b, mapfile, fs);
    ParseLinesGiven(st, a + b, mapfile, fs);
    ParseLinesRetained(st, a + [line] + b, mapfile, fs);
    ParseLinesRetained(st, a + b, mapfile, fs);
  }

  /** When the first line is not a `Point` record and no image is given, the
      image is named by the second line: a missing file is an error, and an
      existing one makes the parse the same as if that image had been given. */
  lemma ImageFromSecondLine(mapfile: string, lines: seq<string>, imgfile: Option<string>, fs: set<string>)
    requires NotGiven(imgfile) && |lines| >= 2 && !IsRecord(lines[0])
    ensures var p := ImagePath(mapfile, lines[1]);
            var r := Parse(mapfile, lines, imgfile, fs);
            && (!Accessible(fs, p) ==> r == Fail(MissingImageFile(p)))
            && (Accessible(fs, p) ==> r == Parse(mapfile, lines, Some(p), fs))
            && (r.Ok? ==> r.value.image == Some(p))
  {
    var p := ImagePath(mapfile, lines[1]);
    var st0 := State(0, imgfile, [], []);
    var given0 := State(0, Some(p), [], []);
    assert Step(st0, lines[0], mapfile, fs) == Ok(State(1, imgfile, [], []));
    assert Step(given0, lines[0], mapfile, fs) == Ok(State(1, Some(p), [], []));
    ParseLinesCons(st0, lines, mapfile, fs);
    ParseLinesCons(given0, lines, mapfile, fs);
    PickedOnCounterTwo(State(1, imgfile, [], []), lines[1..], mapfile, fs);
  }

  /** Once the pick-up has produced an image, the pass is the one it would
      have been had that image been given. */
  lemma StepPicked(st: State, line: string, mapfile: string, fs: set<string>)
    requires PickImage(st.image, st.counter + 1, mapfile, line, fs).Ok?
    ensures var image := PickImage(st.image, st.counter + 1, mapfile, line, fs).value;
            !NotGiven(image) ==> Step(st, line, mapfile, fs) == Step(st.(image := image), line, mapfile, fs)
  {
  }

  /** A loop entering a line with counter 1 and no image takes the image from
      that line, and from then on runs as if the image had been given. */
  lemma PickedOnCounterTwo(st: State, lines: seq<string>, mapfile: string, fs: set<string>)
    requires NotGiven(st.image) && st.counter == 1 && lines != []
    ensures var p := ImagePath(mapfile, lines[0]);
            var r := ParseLines(st, lines, mapfile, fs);
            && (!Accessible(fs, p) ==> r == Fail(MissingImageFile(p)))
            && (Accessible(fs, p) ==> r == ParseLines(st.(image := Some(p)), lines, mapfile, fs))
            && (r.Ok? ==> r.value.image == Some(p))
  {
    var p := ImagePath(mapfile, lines[0]);
    var pick := PickImage(st.image, 2, mapfile, lines[0], fs);
    assert pick == if Accessible(fs, p) then Ok(Some(p)) else Fail(MissingImageFile(p));
    ParseLinesCons(st, lines, mapfile, fs);
    StepImage(st, lines[0], mapfile, fs);
    if Accessible(fs, p) {
      StepPicked(st, lines[0], mapfile, fs);
      ParseLinesCons(st.(image := Some(p)), lines, mapfile, fs);
      var s := Step(st, lines[0], mapfile, fs);
      if s.Ok? {
        ParseLinesGiven(s.value, lines[1..], mapfile, fs);
      }
    }
  }

  /** A pass over a `Point` line without commas, away from the pick-up,
      only sets the counter to len(d) - 1 == 0. */
  lemma StepBareRecord(st: State, line: string, mapfile: string, fs: set<string>)
    requires IsRecord(line) && ',' !in line && st.counter != 1
    ensures Step(st, line, mapfile, fs) == Ok(st.(counter := 0))
  {
    SplitNoSeparator(line, ',');
    assert |Fields(line)| == 1;
  }

  /** A pass over a line that is not a record, away from the pick-up, only
      increments the counter. */
  lemma StepOtherLine(st: State, line: string, mapfile: string, fs: set<string>)
    requires !IsRecord(line) && st.counter != 1
    ensures Step(st, line, mapfile, fs) == Ok(st.(counter := st.counter + 1))
  {
  }

  /** The strip loop reuses the line counter: after a first line that is a
      `Point` record without commas, the counter restarts at 0, so the image
      is named by the third line rather than the second. */
  lemma CounterReusedByStripLoop(mapfile: string, lines: seq<string>, imgfile: Option<string>, fs: set<string>)
    requires NotGiven(imgfile) && |lines| >= 3
    requires IsRecord(lines[0]) && ',' !in lines[0] && !IsRecord(lines[1])
    ensures var p := ImagePath(mapfile, lines[2]);
            var r := Parse(mapfile, lines, imgfile, fs);
            && (!Accessible(fs, p) ==> r == Fail(MissingImageFile(p)))
            && (r.Ok? ==> r.value.image == Some(p))
  {
    var st0 := State(0, imgfile, [], []);
    var st2 := State(1, imgfile, [], []);
    StepBareRecord(st0, lines[0], mapfile, fs);
    StepOtherLine(st0, lines[1], mapfile, fs);
    var rest := lines[1..];
    assert rest[0] == lines[1] && rest[1..] == lines[2..] && lines[2..][0] == lines[2];
    ParseLinesCons(st0, lines, mapfile, fs);
    ParseLinesCons(st0, rest, mapfile, fs);
    PickedOnCounterTwo(st2, lines[2..], mapfile, fs);
  }

  /** A record whose pixel-X field is empty or only whitespace is skipped,
      whatever follows it. */
  lemma BlankPixelXSkipped(tag: string, kind: string, pad: string, rest: string)
    requires StartsWith(tag, RecordTag) && ',' !in tag && ',' !in kind
    requires AllSpace(pad) && ',' !in pad
    ensures IsRecord(tag + "," + kind + "," + pad + "," + rest)
    ensures !Kept(tag + "," + kind + "," + pad + "," + rest)
  {
    var line := tag + "," + kind + "," + pad + "," + rest;
    assert IsRecord(line) by {
      assert line[..|RecordTag|] == tag[..|RecordTag|];
    }
    var parts := Split(line, ',');
    assert parts[2] == pad by {
      var tail2 := pad + [','] + rest;
      var tail1 := kind + [','] + tail2;
      assert line == tag + [','] + tail1;
      SplitAfterPart(tag, tail1, ',');
      SplitAfterPart(kind, tail2, ',');
      SplitAfterPart(pad, rest, ',');
    }
    assert Strip(pad) == "" by {
      StripPadded(pad, [], []);
      assert pad + [] + [] == pad;
    }
    assert Fields(line)[2] == "";
  }

  /** A record with fewer than three fields, such as a bare "Point10", is skipped. */
  lemma FewFieldsSkipped(tag: string, kind: string)
    requires StartsWith(tag, RecordTag) && ',' !in tag && ',' !in kind
    ensures IsRecord(tag) && !Kept(tag)
    ensures IsRecord(tag + "," + kind) && !Kept(tag + "," + kind)
  {
    SplitNoSeparator(tag, ',');
    assert (tag + "," + kind)[..|RecordTag|] == tag[..|RecordTag|];
    assert tag + "," + kind == tag + [','] + kind;
    SplitAfterPart(tag, kind, ',');
    SplitNoSeparator(kind, ',');
  }

  /** The coordinate line splits into exactly two tokens, longitude first,
      when the six coordinate fields hold no whitespace. */
  lemma CoordLineTokens(d: seq<string>)
    requires |d| >= FieldCount
    requires forall k :: 6 <= k < FieldCount ==> NoSpace(d[k])
    ensures Tokens(CoordLine(d)) == [DegMin(d[9], d[10], d[11]), DegMin(d[6], d[7], d[8])]
  {
    var lon := DegMin(d[9], d[10], d[11]);
    var lat := DegMin(d[6], d[7], d[8]);
    assert NoSpace(d[9]) && NoSpace(d[10]) && NoSpace(d[11]);
    assert NoSpace(d[6]) && NoSpace(d[7]) && NoSpace(d[8]);
    assert lon[|d[9]|] == 'd';
    assert lat[|d[6]|] == 'd';
    assert NoSpace(lon) by {
      forall k | 0 <= k < |lon| ensures !IsSpace(lon[k]) {
        if k < |d[9]| { assert lon[k] == d[9][k]; }
        else if k == |d[9]| { }
        else if k < |d[9]| + 1 + |d[10]| { assert lon[k] == d[10][k - |d[9]| - 1]; }
        else { assert lon[k] == d[11][k - |d[9]| - 1 - |d[10]|]; }
      }
    }
    assert NoSpace(lat) by {
      forall k | 0 <= k < |lat| ensures !IsSpace(lat[k]) {
        if k < |d[6]| { assert lat[k] == d[6][k]; }
        else if k == |d[6]| { }
        else if k < |d[6]| + 1 + |d[7]| { assert lat[k] == d[7][k - |d[6]| - 1]; }
        else { assert lat[k] == d[8][k - |d[6]| - 1 - |d[7]|]; }
      }
    }
    TokensOfPair(lon, " ", lat, "\n");
  }

  /** The image named as "<winDir>\<name>" on a padded line resolves to
      "<dir>/<name>" for a calibration file "<dir>/<file>". */
  lemma ImageBesideCalibration(dir: string, file: string, pad: string, winDir: string, name: string, tail: string)
    requires dir != [] && dir[|dir| - 1] != '/' && '/' !in file
    requires AllSpace(pad) && AllSpace(tail)
    requires winDir != [] && !IsSpace(winDir[0])
    requires name != [] && NoNtSeparator(name) && !IsSpace(name[|name| - 1])
    ensures ImagePath(dir + "/" + file, pad + winDir + "\\" + name + tail) == dir + "/" + name
  {
    var m := winDir + "\\" + name;
    assert pad + winDir + "\\" + name + tail == pad + m + tail;
    assert m[|m| - 1] == name[|name| - 1];
    StripPadded(pad, m, tail);
    NtBaseNameOf(winDir, '\\', name);
    assert !IsNtSeparator(name[0]);
    JoinBesideFile(dir, file, name);
  }
}
