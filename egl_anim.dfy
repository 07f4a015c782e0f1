/**
  The stand-alone animation player (egl-anim.cc): it parses the stimulus
  geometry, loads the frame images as textures of one common size, centres
  the textured quad in the window, waits for a key, presents every frame with
  one buffer swap and waits for an Up or Down answer.  Image decoding, EGL and
  GL calls are left to their results: an image either loads with its size or
  fails, and a swap is counted.  Coordinates are exact reals.
*/
module EglAnim {
  import opened Wrappers
  import opened KeyEvents
  import opened Geometry

  /** A C `unsigned int`. */
  type U32 = x: int | 0 <= x < 0x1_0000_0000

  /** Pixel size of a decoded image. */
  datatype Size = Size(width: nat, height: nat)

  datatype LoadError =
    | ImageUnreadable(index: nat)  // load_png_image failed on this image
    | SizeMismatch(index: nat)     // this image's size differs from the previous ones

  /** The images 0 .. k-1 decoded, all with the size of image 0. */
  predicate LoadedAlike(images: seq<Option<Size>>, k: nat)
    requires 0 < |images| && k <= |images|
  {
    forall j :: 0 <= j < k ==> images[j].Some? && images[j] == images[0]
  }

  /**
    Texture loading: every image must decode and have the size of the one
    before it (`prev_twidth` starts at -1 so the first image sets the size).
    The loop stops at the first image that fails.
  */
  method LoadFrames(images: seq<Option<Size>>) returns (r: Result<Size, LoadError>)
    requires |images| > 0
    ensures r.Ok? <==> LoadedAlike(images, |images|)
    ensures r.Ok? ==> r.value == images[0].value
    ensures r.Err? && r.error.ImageUnreadable? ==>
      r.error.index < |images| && images[r.error.index].None? && LoadedAlike(images, r.error.index)
    ensures r.Err? && r.error.SizeMismatch? ==>
      0 < r.error.index < |images| && images[r.error.index].Some? &&
      images[r.error.index] != images[0] && LoadedAlike(images, r.error.index)
  {
    var prevWidth: int, prevHeight: int := -1, 0;
    var twidth, theight := 0, 0;
    var i := 0;
    while i < |images|
      invariant 0 <= i <= |images|
      invariant LoadedAlike(images, i)
      invariant (prevWidth >= 0) == (i > 0)
      invariant i > 0 ==> prevWidth == twidth && prevHeight == theight && images[0] == Some(Size(twidth, theight))
    {
      if images[i].None? {
        return Err(ImageUnreadable(i));
      }
      twidth, theight := images[i].value.width, images[i].value.height;
      if prevWidth >= 0 && (prevWidth != twidth || prevHeight != theight) {
        return Err(SizeMismatch(i));
      }
      prevWidth, prevHeight := twidth, theight;
      i := i + 1;
    }
    return Ok(Size(twidth, theight));
  }

  // Centring and projection

  /** Offset that centres a texture side of `t` pixels in a window side of `w` pixels. */
  function Offset(w: nat, t: nat): real {
    (w as real - t as real) / 2.0
  }

  /** The offset as written: `w - t` is computed in 32-bit unsigned arithmetic before the division. */
  function OffsetAsWritten(w: U32, t: U32): real {
    ((w - t) % 0x1_0000_0000) as real / 2.0
  }

  /** Both agree as long as the texture fits in the window. */
  lemma OffsetAsWrittenWhenFits(w: U32, t: U32)
    requires t <= w
    ensures OffsetAsWritten(w, t) == Offset(w, t)
  {
  }

  /** A 1024-pixel texture in an 800-pixel window: the written offset wraps to about 2^31. */
  lemma OffsetWrapsForLargeTexture()
    ensures Offset(800, 1024) == -112.0
    ensures OffsetAsWritten(800, 1024) == 2147483536.0
  {
    assert (800 - 1024) % 0x1_0000_0000 == 4294967072;
  }

  datatype Vec2 = Vec2(x: real, y: real)

  /** The centred quad as two triangles, in pixel coordinates. */
  function QuadVertices(offx: real, offy: real, tw: real, th: real): seq<Vec2> {
    [Vec2(offx, offy), Vec2(offx, offy + th), Vec2(offx + tw, offy + th),
     Vec2(offx + tw, offy + th), Vec2(offx, offy), Vec2(offx + tw, offy)]
  }

  /** The quad's margins are equal on both sides, so its centre is the window's centre. */
  lemma QuadCentred(w: nat, h: nat, tw: nat, th: nat)
    ensures var q := QuadVertices(Offset(w, tw), Offset(h, th), tw as real, th as real);
      q[0].x + q[2].x == w as real && q[0].y + q[2].y == h as real &&
      q[0].x == w as real - q[2].x && q[0].y == h as real - q[2].y
  {
  }

  /** The vertex shader's projection from pixels to device coordinates, y pointing down. */
  function Project(p: Vec2, w: real, h: real): Vec2
    requires w > 0.0 && h > 0.0
  {
    Vec2(2.0 * p.x / w - 1.0, 1.0 - 2.0 * p.y / h)
  }

  /** Device coordinates back to pixels. */
  function Unproject(q: Vec2, w: real, h: real): Vec2 {
    Vec2((q.x + 1.0) * w / 2.0, (1.0 - q.y) * h / 2.0)
  }

  /** The window's top-left corner goes to (-1, 1), its bottom-right to (1, -1). */
  lemma ProjectCorners(w: real, h: real)
    requires w > 0.0 && h > 0.0
    ensures Project(Vec2(0.0, 0.0), w, h) == Vec2(-1.0, 1.0)
    ensures Project(Vec2(w, h), w, h) == Vec2(1.0, -1.0)
  {
  }

  lemma DivCancel(a: real, c: real, w: real)
    requires w != 0.0 && a == c * w
    ensures a / w == c
  {
  }

  /** The projection is a bijection between pixel and device coordinates. */
  lemma ProjectRoundTrip(p: Vec2, q: Vec2, w: real, h: real)
    requires w > 0.0 && h > 0.0
    ensures Unproject(Project(p, w, h), w, h) == p
    ensures Project(Unproject(q, w, h), w, h) == q
  {
    assert (2.0 * p.x / w - 1.0 + 1.0) * w / 2.0 == p.x;
    assert (1.0 - (1.0 - 2.0 * p.y / h)) * h / 2.0 == p.y;
    var px, py := (q.x + 1.0) * w / 2.0, (1.0 - q.y) * h / 2.0;
    assert 2.0 * px == (q.x + 1.0) * w;
    DivCancel(2.0 * px, q.x + 1.0, w);
    assert 2.0 * py == (1.0 - q.y) * h;
    DivCancel(2.0 * py, 1.0 - q.y, h);
  }

  /** Texture coordinate of a pixel position: its place within the quad. */
  function TexCoord(p: Vec2, offx: real, offy: real, tw: real, th: real): Vec2
    requires tw > 0.0 && th > 0.0
  {
    Vec2((p.x - offx) / tw, (p.y - offy) / th)
  }

  /** The quad's corners map onto the corners of the unit texture square. */
  lemma QuadTexCoords(offx: real, offy: real, tw: real, th: real)
    requires tw > 0.0 && th > 0.0
    ensures var q := QuadVertices(offx, offy, tw, th);
      TexCoord(q[0], offx, offy, tw, th) == Vec2(0.0, 0.0) &&
      TexCoord(q[1], offx, offy, tw, th) == Vec2(0.0, 1.0) &&
      TexCoord(q[2], offx, offy, tw, th) == Vec2(1.0, 1.0) &&
      TexCoord(q[3], offx, offy, tw, th) == Vec2(1.0, 1.0) &&
      TexCoord(q[4], offx, offy, tw, th) == Vec2(0.0, 0.0) &&
      TexCoord(q[5], offx, offy, tw, th) == Vec2(1.0, 0.0)
  {
    var q := QuadVertices(offx, offy, tw, th);
    assert (offx + tw - offx) / tw == 1.0;
    assert (offy + th - offy) / th == 1.0;
  }

  // Presentation and answer

  /** The frame counter stays below the number of frames, so `i % nframes` is `i` on one pass. */
  lemma ModBelow(i: int, n: int)
    requires 0 <= i < n
    ensures i % n == i
  {
  }

  /**
    The presentation loop: frame i binds texture `tframes[i % nframes]`, then
    one buffer swap; a swap interval other than 1 is requested before each swap.
  */
  method PresentFrames(tframes: seq<int>, swapInterval: int) returns (bound: seq<int>, swaps: nat, intervalCalls: nat)
    ensures bound == tframes
    ensures swaps == |tframes|
    ensures intervalCalls == if swapInterval != 1 then |tframes| else 0
  {
    var nframes := |tframes|;
    bound, swaps, intervalCalls := [], 0, 0;
    var i := 0;
    while i < nframes
      invariant 0 <= i <= nframes
      invariant bound == tframes[..i]
      invariant swaps == i
      invariant intervalCalls == if swapInterval != 1 then i else 0
    {
      ModBelow(i, nframes);
      assert tframes[..i + 1] == tframes[..i] + [tframes[i]];
      bound := bound + [tframes[i % nframes]];
      if swapInterval != 1 {
        intervalCalls := intervalCalls + 1;
      }
      swaps := swaps + 1;
      i := i + 1;
    }
    assert tframes[..i] == tframes;
  }

  /**
    The answer loop: non-key events and keys other than Up and Down are
    skipped; the first Up or Down ends the wait, `answerUp` telling which.
  */
  method WaitAnswer(events: seq<Event>, from: nat) returns (pressed: bool, answerUp: bool, next: nat)
    requires from <= |events|
    ensures from <= next <= |events|
    ensures pressed <==> NextAccepted(events, from, AnswerKeys).Some?
    ensures pressed ==> next == NextAccepted(events, from, AnswerKeys).value + 1
    ensures pressed ==> answerUp == (events[next - 1].keysym == XK_Up)
    ensures !pressed ==> next == |events|
  {
    pressed, answerUp, next := false, false, from;
    while !pressed && next < |events|
      invariant from <= next <= |events|
      invariant pressed ==> NextAccepted(events, from, AnswerKeys) == Some(next - 1)
      invariant pressed ==> answerUp == (events[next - 1].keysym == XK_Up)
      invariant !pressed ==> NextAccepted(events, from, AnswerKeys) == NextAccepted(events, next, AnswerKeys)
    {
      var evt := events[next];
      next := next + 1;
      if evt.KeyPress? {
        if evt.keysym == XK_Up {
          pressed, answerUp := true, true;
        } else if evt.keysym == XK_Down {
          pressed, answerUp := true, false;
        }
      }
    }
  }

  /** How a run of the player ends. */
  datatype Outcome =
    | BadGeometry(geometryError: GeometryError)
    | BadFrames(loadError: LoadError)
    | NoStart          // the queue ran out before any key press
    | NoAnswer         // the queue ran out before Up or Down
    | Answered(up: bool)

  /**
    The player from the geometry option to the answer: geometry, loading,
    start key, presentation, blank screen, answer.  `swaps` counts buffer swaps.
  */
  method Play(geom: string, images: seq<Option<Size>>, tframes: seq<int>, swapInterval: int, events: seq<Event>)
    returns (outcome: Outcome, swaps: nat)
    requires |images| > 0 && |tframes| == |images|
    ensures ParseDimensions(geom).Err? <==> outcome.BadGeometry?
    ensures outcome.BadGeometry? ==> outcome.geometryError == ParseDimensions(geom).error
    ensures ParseDimensions(geom).Ok? ==> (outcome.BadFrames? <==> !LoadedAlike(images, |images|))
    ensures outcome.NoStart? <==> ParseDimensions(geom).Ok? && LoadedAlike(images, |images|) && NextKeyPress(events, 0).None?
    ensures outcome.BadFrames? && outcome.loadError.ImageUnreadable? ==>
      var i := outcome.loadError.index; i < |images| && images[i].None? && LoadedAlike(images, i)
    ensures outcome.BadFrames? && outcome.loadError.SizeMismatch? ==>
      var i := outcome.loadError.index;
      0 < i < |images| && images[i].Some? && images[i] != images[0] && LoadedAlike(images, i)
    ensures outcome.NoAnswer? <==>
      ParseDimensions(geom).Ok? && LoadedAlike(images, |images|) && NextKeyPress(events, 0).Some? &&
      NextAccepted(events, NextKeyPress(events, 0).value + 1, AnswerKeys).None?
    ensures outcome.Answered? <==>
      ParseDimensions(geom).Ok? && LoadedAlike(images, |images|) && NextKeyPress(events, 0).Some? &&
      NextAccepted(events, NextKeyPress(events, 0).value + 1, AnswerKeys).Some?
    ensures outcome.Answered? ==> swaps == |tframes| + 1
    ensures outcome.Answered? ==>
      var a := NextAccepted(events, NextKeyPress(events, 0).value + 1, AnswerKeys);
      a.Some? && outcome.up == (events[a.value].keysym == XK_Up)
  {
    swaps := 0;
    var dims := ParseDimensions(geom);
    if dims.Err? {
      return BadGeometry(dims.error), swaps;
    }
    var loaded := LoadFrames(images);
    if loaded.Err? {
      return BadFrames(loaded.error), swaps;
    }
    var started, used := WaitAnyKey(events, 0);
    if !started {
      return NoStart, swaps;
    }
    var bound, presented, intervalCalls := PresentFrames(tframes, swapInterval);
    swaps := presented + 1;
    var pressed, answerUp, _ := WaitAnswer(events, used);
    if !pressed {
      return NoAnswer, swaps;
    }
    return Answered(answerUp), swaps;
  }
}
