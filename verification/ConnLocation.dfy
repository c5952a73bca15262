/** Moving connection lines between the session and its streams (src/sdp_filter.cpp). */
module ConnLocation {
  import opened Sdp

  const BOTH: int := 0
  const SESSION_ONLY: int := 1
  const MEDIA_ONLY: int := 2

  predicate Present(c: SdpConnection) {
    c.address != ""
  }

  /** Section 5.7 of RFC 4566: a stream uses its own line, else the session's. */
  function Effective(session: SdpConnection, m: SdpMedia): SdpConnection {
    if Present(m.conn) then m.conn else session
  }

  /** All streams that have a line have this one. */
  ghost predicate Agree(media: seq<SdpMedia>, c: SdpConnection) {
    forall i :: 0 <= i < |media| && Present(media[i].conn) ==> media[i].conn == c
  }

  ghost predicate SomeLine(media: seq<SdpMedia>) {
    exists i :: 0 <= i < |media| && Present(media[i].conn)
  }

  /** The streams' lines are all the same, and there is one. */
  ghost predicate Common(media: seq<SdpMedia>, c: SdpConnection) {
    Present(c) && SomeLine(media) && Agree(media, c)
  }

  /** Same stream, whatever its line. */
  ghost predicate SameBut(a: seq<SdpMedia>, b: seq<SdpMedia>) {
    |a| == |b| && forall i :: 0 <= i < |a| ==> a[i].(conn := b[i].conn) == b[i]
  }

  /** Every stream that had a connection still has it. */
  ghost predicate KeepsConnections(
    session: SdpConnection, media: seq<SdpMedia>, session': SdpConnection, media': seq<SdpMedia>)
  {
    && |media| == |media'|
    && forall i :: 0 <= i < |media| && Present(Effective(session, media[i])) ==>
                     Effective(session', media'[i]) == Effective(session, media[i])
  }

  // ---------- the edits ----------

  /** The first stream line, or `conn` if that is present; stops at the first mismatch. */
  method AllMediaConnEqual(media: seq<SdpMedia>) returns (equal: bool, conn: SdpConnection)
    ensures equal && Present(conn) ==> Common(media, conn)
    ensures equal && !Present(conn) ==> !SomeLine(media)
    ensures !equal ==> forall c :: !Agree(media, c)
  {
    equal, conn := true, NO_CONNECTION;
    var m := 0;
    while m < |media|
      invariant 0 <= m <= |media|
      invariant equal
      invariant Agree(media[..m], conn)
      invariant Present(conn) <==> SomeLine(media[..m])
    {
      assert media[..m + 1] == media[..m] + [media[m]];
      var c := media[m].conn;
      if Present(c) {
        if !Present(conn) {
          conn := c;
        } else if conn != c {
          equal := false;
          ghost var i :| 0 <= i < m && Present(media[..m][i].conn);
          assert media[i].conn == conn && media[m].conn == c;
          return;
        }
      }
      assert Present(c) ==> Present(media[..m + 1][m].conn);
      assert forall i :: 0 <= i < m ==> media[..m + 1][i] == media[..m][i];
      m := m + 1;
    }
    assert media[..m] == media;
  }

  /** The session line that is in force once the streams' common line is lifted. */
  ghost predicate Lifted(session: SdpConnection, media: seq<SdpMedia>, session': SdpConnection) {
    if Present(session) || forall c :: !Common(media, c) then session' == session
    else Common(media, session')
  }

  method AssertSessionConn(sdp: AmSdp) returns (haveSessionLevel: bool)
    modifies sdp`conn
    ensures Lifted(old(sdp.conn), sdp.media, sdp.conn)
    ensures haveSessionLevel == Present(sdp.conn)
  {
    if Present(sdp.conn) {
      return true;
    }
    haveSessionLevel := false;
    if |sdp.media| > 1 {
      var equal, conn := AllMediaConnEqual(sdp.media);
      if equal && Present(conn) {
        sdp.conn := conn;
        haveSessionLevel := true;
      }
    } else if |sdp.media| > 0 {
      var conn := sdp.media[0].conn;
      if Present(conn) {
        sdp.conn := conn;
        haveSessionLevel := true;
        assert Common(sdp.media, conn);
      }
    }
  }

  function Filled(session: SdpConnection, media: seq<SdpMedia>): (r: seq<SdpMedia>)
    ensures |r| == |media|
    ensures forall i :: 0 <= i < |r| ==> r[i] == media[i].(conn := Effective(session, media[i]))
  {
    seq(|media|, i requires 0 <= i < |media| => media[i].(conn := Effective(session, media[i])))
  }

  method AssertMediaConn(sdp: AmSdp) returns (changed: bool)
    modifies sdp`media
    ensures if Present(sdp.conn) then sdp.media == Filled(sdp.conn, old(sdp.media))
            else sdp.media == old(sdp.media)
    ensures changed <==> sdp.media != old(sdp.media)
  {
    if !Present(sdp.conn) {
      return false;
    }
    changed := false;
    for m := 0 to |sdp.media|
      invariant |sdp.media| == |old(sdp.media)|
      invariant forall i :: 0 <= i < m ==> sdp.media[i] == Filled(sdp.conn, old(sdp.media))[i]
      invariant forall i :: m <= i < |sdp.media| ==> sdp.media[i] == old(sdp.media)[i]
      invariant changed <==> exists i :: 0 <= i < m && !Present(old(sdp.media)[i].conn)
    {
      if !Present(sdp.media[m].conn) {
        sdp.media := sdp.media[m := sdp.media[m].(conn := sdp.conn)];
        changed := true;
      }
    }
    if changed {
      ghost var i :| 0 <= i < |sdp.media| && !Present(old(sdp.media)[i].conn);
      assert sdp.media[i] != old(sdp.media)[i];
    }
  }

  function Cleared(media: seq<SdpMedia>): (r: seq<SdpMedia>)
    ensures |r| == |media|
    ensures forall i :: 0 <= i < |r| ==>
              r[i] == if Present(media[i].conn) then media[i].(conn := NO_CONNECTION) else media[i]
  {
    seq(|media|, i requires 0 <= i < |media| =>
      if Present(media[i].conn) then media[i].(conn := NO_CONNECTION) else media[i])
  }

  method RemoveMediaConn(sdp: AmSdp)
    modifies sdp`media
    ensures sdp.media == Cleared(old(sdp.media))
  {
    for m := 0 to |sdp.media|
      invariant |sdp.media| == |old(sdp.media)|
      invariant forall i :: 0 <= i < m ==> sdp.media[i] == Cleared(old(sdp.media))[i]
      invariant forall i :: m <= i < |sdp.media| ==> sdp.media[i] == old(sdp.media)[i]
    {
      if Present(sdp.media[m].conn) {
        sdp.media := sdp.media[m := sdp.media[m].(conn := NO_CONNECTION)];
      }
    }
  }

  /** Before and after a normalization.  A session line that is lifted from the streams
      is the one they share; where the line ends up depends on the location. */
  ghost predicate Normalized(
    location: int, session: SdpConnection, media: seq<SdpMedia>,
    session': SdpConnection, media': seq<SdpMedia>)
  {
    if location !in {BOTH, SESSION_ONLY, MEDIA_ONLY} then session' == session && media' == media
    else exists lifted :: NormalizedVia(location, session, media, lifted, session', media')
  }

  ghost predicate NormalizedVia(
    location: int, session: SdpConnection, media: seq<SdpMedia>, lifted: SdpConnection,
    session': SdpConnection, media': seq<SdpMedia>)
  {
    && Lifted(session, media, lifted)
    && session' == (if location == MEDIA_ONLY then NO_CONNECTION else lifted)
    && media' == (if !Present(lifted) then media
                  else if location == SESSION_ONLY then Cleared(media)
                  else Filled(lifted, media))
  }

  method NormalizeConnLocation(sdp: AmSdp, location: int)
    modifies sdp
    ensures Normalized(location, old(sdp.conn), old(sdp.media), sdp.conn, sdp.media)
    ensures SameBut(old(sdp.media), sdp.media)
    ensures KeepsConnections(old(sdp.conn), old(sdp.media), sdp.conn, sdp.media)
            <==> (location == SESSION_ONLY && Present(old(sdp.conn)) ==>
                    Agree(old(sdp.media), old(sdp.conn)))
  {
    ghost var lifted := sdp.conn;
    if location == BOTH {
      var _ := AssertSessionConn(sdp);
      lifted := sdp.conn;
      var _ := AssertMediaConn(sdp);
    } else if location == SESSION_ONLY {
      var have := AssertSessionConn(sdp);
      lifted := sdp.conn;
      if have {
        RemoveMediaConn(sdp);
      }
    } else if location == MEDIA_ONLY {
      var _ := AssertSessionConn(sdp);
      lifted := sdp.conn;
      var _ := AssertMediaConn(sdp);
      sdp.conn := NO_CONNECTION;
    }
    assert location in {BOTH, SESSION_ONLY, MEDIA_ONLY} ==>
        NormalizedVia(location, old(sdp.conn), old(sdp.media), lifted, sdp.conn, sdp.media);
    KeepsExactlyWhen(location, old(sdp.conn), old(sdp.media), sdp.conn, sdp.media);
  }

  // ---------- properties ----------

  /** Connections survive BOTH and MEDIA_ONLY always; they survive SESSION_ONLY exactly
      when the session line was absent or no stream disagreed with it. */
  lemma KeepsExactlyWhen(
    location: int, session: SdpConnection, media: seq<SdpMedia>,
    session': SdpConnection, media': seq<SdpMedia>)
    requires Normalized(location, session, media, session', media')
    ensures KeepsConnections(session, media, session', media')
            <==> (location == SESSION_ONLY && Present(session) ==> Agree(media, session))
  {
    if location == SESSION_ONLY {
      var lifted :| NormalizedVia(location, session, media, lifted, session', media');
      if Present(session) && !Agree(media, session) {
        var i :| 0 <= i < |media| && Present(media[i].conn) && media[i].conn != session;
        assert Effective(session', media'[i]) == session;
      }
    } else if location in {BOTH, MEDIA_ONLY} {
      var lifted :| NormalizedVia(location, session, media, lifted, session', media');
    }
  }

  /** A concrete loss: one stream whose own line differs from the session's. */
  lemma SessionOnlyCanLose()
    ensures exists session, media, session', media' ::
              && Normalized(SESSION_ONLY, session, media, session', media')
              && !KeepsConnections(session, media, session', media')
  {
    var session, own := SdpConnection(1, 1, "192.0.2.1"), SdpConnection(1, 1, "192.0.2.2");
    var media := [SdpMedia(Audio, RtpAvp, 4000, [], own)];
    assert NormalizedVia(SESSION_ONLY, session, media, session, session, Cleared(media));
    assert Normalized(SESSION_ONLY, session, media, session, Cleared(media));
    assert Effective(session, media[0]) == own;
    assert Effective(session, Cleared(media)[0]) == session;
  }

  /** Where the lines are afterwards: SESSION_ONLY never leaves both a session line and
      a stream line, MEDIA_ONLY never leaves a session line, and after BOTH and MEDIA_ONLY
      a stream with a connection states it itself. */
  lemma LinesAreWhereAsked(
    location: int, session: SdpConnection, media: seq<SdpMedia>,
    session': SdpConnection, media': seq<SdpMedia>)
    requires Normalized(location, session, media, session', media')
    ensures location == SESSION_ONLY ==> !Present(session') || !SomeLine(media')
    ensures location == MEDIA_ONLY ==> !Present(session')
    ensures location in {BOTH, MEDIA_ONLY} ==>
              forall i :: 0 <= i < |media| && Present(Effective(session, media[i])) ==>
                            |media'| == |media| && media'[i].conn == Effective(session, media[i])
  {
    if location in {BOTH, SESSION_ONLY, MEDIA_ONLY} {
      var lifted :| NormalizedVia(location, session, media, lifted, session', media');
    }
  }

  /** The line c is the one that all streams with a line have, and some stream has a line. */
  ghost predicate Shared(media: seq<SdpMedia>, c: SdpConnection) {
    && (exists i :: 0 <= i < |media| && media[i].conn.address != "")
    && forall i :: 0 <= i < |media| && media[i].conn.address != "" ==> media[i].conn == c
  }

  /** The session line of BOTH and SESSION_ONLY: one that is there stays, one that is not is the line the streams
      share, should they share one; SESSION_ONLY leaves no stream line beside it.  MEDIA_ONLY leaves none. */
  lemma SessionLine(
    location: int, session: SdpConnection, media: seq<SdpMedia>,
    session': SdpConnection, media': seq<SdpMedia>)
    requires Normalized(location, session, media, session', media')
    ensures location !in {BOTH, SESSION_ONLY, MEDIA_ONLY} ==> session' == session && media' == media
    ensures location in {BOTH, SESSION_ONLY} && session.address != "" ==> session' == session
    ensures location in {BOTH, SESSION_ONLY} && session.address == "" ==>
              && (forall c :: Shared(media, c) ==> session' == c)
              && ((forall c :: !Shared(media, c)) ==> session' == session)
    ensures location == MEDIA_ONLY ==> session' == NO_CONNECTION
  {
    SharedIsCommon(media);
  }

  lemma SharedIsCommon(media: seq<SdpMedia>)
    ensures forall c :: Shared(media, c) <==> Common(media, c)
    ensures forall c, d :: Shared(media, c) && Shared(media, d) ==> c == d
  {
    forall c
      ensures Shared(media, c) <==> Common(media, c)
    {
      if Shared(media, c) {
        var i :| 0 <= i < |media| && media[i].conn.address != "";
        assert Present(media[i].conn);
      }
    }
  }

  /** The stream lines: BOTH and MEDIA_ONLY fill the missing ones with the session line that was there, or with
      the shared one; SESSION_ONLY clears all of them if the session has a line afterwards; without
      any line to work with, the streams are as they were. */
  lemma StreamLines(
    location: int, session: SdpConnection, media: seq<SdpMedia>,
    session': SdpConnection, media': seq<SdpMedia>, i: nat)
    requires Normalized(location, session, media, session', media') && location in {BOTH, SESSION_ONLY, MEDIA_ONLY}
    requires i < |media|
    ensures |media'| == |media| && media'[i] == media[i].(conn := media'[i].conn)
    ensures location != SESSION_ONLY && media[i].conn.address != "" ==> media'[i] == media[i]
    ensures location != SESSION_ONLY && media[i].conn.address == "" && session.address != "" ==>
              media'[i].conn == session
    ensures location != SESSION_ONLY && media[i].conn.address == "" && session.address == "" ==>
              && (forall c :: Shared(media, c) ==> media'[i].conn == c)
              && ((forall c :: !Shared(media, c)) ==> media'[i] == media[i])
    ensures location == SESSION_ONLY && session'.address != "" ==> media'[i].conn.address == ""
    ensures location == SESSION_ONLY && session'.address == "" ==> media'[i] == media[i]
  {
    SharedIsCommon(media);
    var lifted :| NormalizedVia(location, session, media, lifted, session', media');
  }

  /** Normalizing a second time changes no stream, and no session line either. */
  lemma NormalizeTwice(
    location: int, session: SdpConnection, media: seq<SdpMedia>,
    session': SdpConnection, media': seq<SdpMedia>,
    session'': SdpConnection, media'': seq<SdpMedia>)
    requires Normalized(location, session, media, session', media')
    requires Normalized(location, session', media', session'', media'')
    ensures session'' == session' && media'' == media'
  {
    if location in {BOTH, SESSION_ONLY, MEDIA_ONLY} {
      var l :| NormalizedVia(location, session, media, l, session', media');
      var l' :| NormalizedVia(location, session', media', l', session'', media'');
      if location == MEDIA_ONLY && Present(l') {
        SharedLineFillsAll(session, media, l, media', l');
      } else if !Present(l) {
        assert media' == media;
      }
    }
  }

  /** A line shared after filling leaves no stream empty. */
  lemma SharedLineFillsAll(
    session: SdpConnection, media: seq<SdpMedia>, lifted: SdpConnection,
    media': seq<SdpMedia>, lifted': SdpConnection)
    requires NormalizedVia(MEDIA_ONLY, session, media, lifted, NO_CONNECTION, media')
    requires Common(media', lifted')
    ensures Filled(lifted', media') == media'
  {
    if !Present(lifted) {
      assert media' == media && Common(media, lifted');
    }
  }
}
