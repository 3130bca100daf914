/** The router of the music section (src/pages/MusicPLRouter.tsx): whether the current
    location is an album opened over the search list, whether it belongs to the
    music section at all, and which of the three layouts is drawn. */
module MusicRouter {
  import opened Text

  /** The location the album link was opened from. */
  datatype Background = Background(pathname: string, search: string, hash: string)

  /** `location.state`: each field may be absent. */
  datatype RouteState = RouteState(backgroundLocation: Option<Background>, savedScrollY: Option<int>, savedDocH: Option<int>)

  datatype Location = Location(pathname: string, state: Option<RouteState>)

  const AlbumPrefix := "/musicpl/"

  /** `/^\/musicpl\/[^/]+$/`: "/musicpl/" and then one or more characters, none of them "/". */
  predicate IsAlbumPath(p: string) {
    StartsWith(p, AlbumPrefix) && |p| > |AlbumPrefix| && '/' !in p[|AlbumPrefix|..]
  }

  /** The pattern matches exactly the paths "/musicpl/" + id for a non-empty id without "/". */
  lemma AlbumPathIff(p: string)
    ensures IsAlbumPath(p) <==> exists id :: id != [] && '/' !in id && p == AlbumPrefix + id
  {
    if IsAlbumPath(p) {
      var id := p[|AlbumPrefix|..];
      assert p == AlbumPrefix + id;
    }
    if exists id :: id != [] && '/' !in id && p == AlbumPrefix + id {
      var id :| id != [] && '/' !in id && p == AlbumPrefix + id;
      assert p[|AlbumPrefix|..] == id;
      assert p[..|AlbumPrefix|] == AlbumPrefix;
    }
  }

  function BackgroundOf(loc: Location): Option<Background> {
    if loc.state.Some? then loc.state.value.backgroundLocation else None
  }

  /** `isOverlay`: an album path reached with a background location. */
  predicate IsOverlay(loc: Location) {
    IsAlbumPath(loc.pathname) && BackgroundOf(loc).Some?
  }

  /** `isMusicPair`: the search page itself or an album path. */
  predicate IsMusicPair(loc: Location) {
    loc.pathname == "/musicpl" || IsAlbumPath(loc.pathname)
  }

  /** An overlay is always one of the music section's own paths. */
  lemma OverlayIsMusicPair(loc: Location)
    ensures IsOverlay(loc) ==> IsMusicPair(loc)
  {
  }

  /** The pattern wants a non-empty last segment and exactly one segment after "/musicpl/". */
  lemma RouterExamples(state: Option<RouteState>)
    ensures !IsMusicPair(Location("/musicpl/", state)) && !IsOverlay(Location("/musicpl/", state))
    ensures !IsMusicPair(Location("/musicpl/a/b", state)) && !IsOverlay(Location("/musicpl/a/b", state))
    ensures IsMusicPair(Location("/musicpl", state)) && !IsOverlay(Location("/musicpl", state))
    ensures IsMusicPair(Location("/musicpl/abc", state))
  {
    assert "/musicpl/a/b"[|AlbumPrefix|..][1] == '/';
    assert "/musicpl/abc"[..|AlbumPrefix|] == AlbumPrefix;
    assert "/musicpl/abc"[|AlbumPrefix|..] == "abc";
  }

  /** The three layouts: the plain routes, the album over the blurred list, or the list. */
  datatype Layout = PlainRoutes | OverlayLayout | ListLayout

  function ChooseLayout(loc: Location): Layout {
    if !IsMusicPair(loc) then PlainRoutes
    else if IsOverlay(loc) then OverlayLayout
    else ListLayout
  }

  /** Each layout is drawn exactly under its condition. */
  lemma ChooseLayoutIff(loc: Location)
    ensures ChooseLayout(loc) == PlainRoutes <==> !IsMusicPair(loc)
    ensures ChooseLayout(loc) == OverlayLayout <==> IsOverlay(loc)
    ensures ChooseLayout(loc) == ListLayout <==> IsMusicPair(loc) && !IsOverlay(loc)
  {
    OverlayIsMusicPair(loc);
  }
}
