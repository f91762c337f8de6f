/** The argument vector handed to the first gdal_translate: the projection,
    then one `-gcp x y lon lat` group per projector output line, pairing the
    k-th output line with the k-th retained pixel pair. */
module Gcp {
  import opened Failures
  import opened Text
  import opened Calibration

  /** The fixed target projection (Mercator on WGS84). */
  const Projection := "+proj=merc +ellps=WGS84 +datum=WGS84 +no_defs"

  /** The five arguments for one control point. */
  function Group(p: Pixel, lon: string, lat: string): seq<string> {
    ["-gcp", p.x, p.y, lon, lat]
  }

  /** The -gcp groups for the projector output `out`, consuming `pixels` from
      the front: a line without exactly two tokens fails the unpacking, and a
      line with no pixel pair left fails the pop. */
  function Groups(pixels: seq<Pixel>, out: seq<string>): (r: Result<seq<string>>)
    ensures r.Ok? <==> |out| <= |pixels| && forall k :: 0 <= k < |out| ==> |Tokens(out[k])| == 2
    ensures r.Ok? ==> |r.value| == 5 * |out|
    ensures r.Fail? ==> r.error.UnpackError? || r.error == PopFromEmpty
    decreases |out|
  {
    if out == [] then Ok([])
    else
      var t := Tokens(out[0]);
      if |t| != 2 then Fail(UnpackError(|t|))
      else if pixels == [] then Fail(PopFromEmpty)
      else
        var rest :- Groups(pixels[1..], out[1..]);
        Ok(Group(pixels[0], t[0], t[1]) + rest)
  }

  /** `acc` followed by the groups of r, or r's error. */
  function Prepend(acc: seq<string>, r: Result<seq<string>>): Result<seq<string>> {
    if r.Ok? then Ok(acc + r.value) else r
  }

  /** Lines 111-116 as written: start from ["-a_srs", projection], then for
      each output line split it, pop the first pixel pair and append a group. */
  method BuildArgs(projection: string, pixels: seq<Pixel>, out: seq<string>) returns (r: Result<seq<string>>)
    ensures r == Prepend(["-a_srs", projection], Groups(pixels, out))
    ensures r.Ok? <==> |out| <= |pixels| && forall k :: 0 <= k < |out| ==> |Tokens(out[k])| == 2
    ensures r.Ok? ==> |r.value| == 2 + 5 * |out| && r.value[..2] == ["-a_srs", projection]
  {
    var args := ["-a_srs", projection];
    var points := pixels;
    var k := 0;
    while k < |out|
      invariant 0 <= k <= |out|
      invariant Prepend(["-a_srs", projection], Groups(pixels, out)) == Prepend(args, Groups(points, out[k..]))
      invariant |args| == 2 + 5 * k && args[..2] == ["-a_srs", projection]
    {
      var line := out[k];
      var t := Tokens(line);
      assert out[k..][0] == line && out[k..][1..] == out[k + 1..];
      if |t| != 2 {
        return Fail(UnpackError(|t|));
      }
      if points == [] {
        return Fail(PopFromEmpty);
      }
      var p := points[0];
      points := points[1..];
      assert args + (Group(p, t[0], t[1])) + [] == args + Group(p, t[0], t[1]);
      var g := Groups(points, out[k + 1..]);
      if g.Ok? {
        assert args + (Group(p, t[0], t[1]) + g.value) == (args + Group(p, t[0], t[1])) + g.value;
      }
      args := args + Group(p, t[0], t[1]);
      k := k + 1;
    }
    assert out[k..] == [];
    assert args + [] == args;
    r := Ok(args);
  }

  /** The k-th group pairs the k-th pixel pair with the two tokens of the k-th output line. */
  lemma {:induction false} GroupAt(pixels: seq<Pixel>, out: seq<string>, k: nat)
    requires Groups(pixels, out).Ok? && k < |out|
    ensures |Tokens(out[k])| == 2
    ensures Groups(pixels, out).value[5 * k..5 * k + 5] == Group(pixels[k], Tokens(out[k])[0], Tokens(out[k])[1])
    decreases k
  {
    var r := Groups(pixels, out).value;
    var t := Tokens(out[0]);
    var rest := Groups(pixels[1..], out[1..]).value;
    assert r == Group(pixels[0], t[0], t[1]) + rest;
    if k > 0 {
      GroupAt(pixels[1..], out[1..], k - 1);
      assert r[5 * k..5 * k + 5] == rest[5 * (k - 1)..5 * (k - 1) + 5];
    }
  }

  /** The first offending output line decides the error: the unpacking is
      checked before the pop. */
  lemma {:induction false} GroupsFailAt(pixels: seq<Pixel>, out: seq<string>, k: nat)
    requires k < |out| && k <= |pixels|
    requires forall j :: 0 <= j < k ==> |Tokens(out[j])| == 2
    requires |Tokens(out[k])| != 2 || k == |pixels|
    ensures Groups(pixels, out) == Fail(if |Tokens(out[k])| != 2 then UnpackError(|Tokens(out[k])|) else PopFromEmpty)
    decreases k
  {
    if k > 0 {
      assert |Tokens(out[0])| == 2;
      assert out[1..][k - 1] == out[k];
      forall j | 0 <= j < k - 1 ensures |Tokens(out[1..][j])| == 2 {
        assert out[1..][j] == out[j + 1];
      }
      GroupsFailAt(pixels[1..], out[1..], k - 1);
    }
  }

  /** A projector that answers every coordinate line c with one line
      "<lon>\t<lat>\n" of whitespace-free tokens yields one group per point,
      the k-th carrying the k-th pixel pair and the projector's answer for
      the k-th coordinate line. */
  lemma StubProjector(pixels: seq<Pixel>, coords: seq<string>, lon: string -> string, lat: string -> string, k: nat)
    requires |pixels| == |coords| && k < |coords|
    requires forall c :: lon(c) != [] && NoSpace(lon(c)) && lat(c) != [] && NoSpace(lat(c))
    ensures var out := seq(|coords|, j requires 0 <= j < |coords| => lon(coords[j]) + "\t" + lat(coords[j]) + "\n");
            var r := Groups(pixels, out);
            && r.Ok? && |r.value| == 5 * |coords|
            && r.value[5 * k..5 * k + 5] == Group(pixels[k], lon(coords[k]), lat(coords[k]))
  {
    var out := seq(|coords|, j requires 0 <= j < |coords| => lon(coords[j]) + "\t" + lat(coords[j]) + "\n");
    forall j | 0 <= j < |out| ensures Tokens(out[j]) == [lon(coords[j]), lat(coords[j])] {
      TokensOfPair(lon(coords[j]), "\t", lat(coords[j]), "\n");
    }
    GroupAt(pixels, out, k);
  }
}
