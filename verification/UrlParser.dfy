/** The URL parser: a scan for the parts of the URL, a second one of the server part, and the port's value. */
module UrlParser {
  import opened Bytes
  import opened UrlGrammar
  import opened UrlScans
  import opened UrlForms

  /** A scheme without a server part is not acceptable. */
  lemma NoServer(connect: bool, buf: seq<byte>, u: Url)
    requires Exact(connect, buf, u, |buf|) && FScheme in u && FHost !in u
    ensures forall s, v :: Parsed(connect, buf, s, v) ==> !Scannable(connect, buf, s, v)
  {
    assert PartExact(connect, buf, u, |buf|, FHost) && PartExact(connect, buf, u, |buf|, FScheme);
    forall s, v | Parsed(connect, buf, s, v) ensures !Scannable(connect, buf, s, v) {
      ServerUnique(connect, buf, s, None);
      assert PartExact(connect, buf, v, |buf|, FScheme);
      PartUnique(connect, buf, u, v, FScheme);
    }
  }

  /** Nor is a server part that its machine does not accept. */
  lemma BadServer(connect: bool, buf: seq<byte>, u: Url)
    requires Exact(connect, buf, u, |buf|) && FHost in u && End(u[FHost]) <= |buf|
    requires !Ends(HostStateAt(AtSeen(connect, buf, |buf|), buf, u[FHost].off, End(u[FHost])))
    ensures forall s, v :: Parsed(connect, buf, s, v) ==> !Scannable(connect, buf, s, v)
  {
    assert PartExact(connect, buf, u, |buf|, FHost);
    forall s, v | Parsed(connect, buf, s, v) ensures !Scannable(connect, buf, s, v) {
      ServerUnique(connect, buf, s, Some(u[FHost]));
    }
  }

  /** Both scans. */
  method FindParts(connect: bool, buf: seq<byte>) returns (ok: bool, u: Url, ghost server: Option<Run>)
    ensures ok ==> Parsed(connect, buf, server, u) && InOrder(u) && Scannable(connect, buf, server, u)
    ensures !ok ==> forall s, v :: Parsed(connect, buf, s, v) ==> !Scannable(connect, buf, s, v)
  {
    server := None;
    var foundAt;
    ok, u, foundAt := Scan(connect, buf);
    if !ok {
      return;
    }
    if FScheme in u && FHost !in u {
      NoServer(connect, buf, u);
      return false, u, None;
    }
    if FHost in u {
      server := Some(u[FHost]);
      ScanSets(connect, buf, u, FHost);
      var v;
      ok, v := ScanHost(foundAt, buf, u[FHost]);
      if !ok {
        BadServer(connect, buf, u);
        return;
      }
      MergedInOrder(connect, foundAt, buf, u, v);
      MergedParsed(connect, buf, u, v);
      u := Merged(u, v);
    } else {
      PlainParsed(connect, buf, u);
    }
  }

  /**
   * `http_parser_parse_url`, for input whose offsets fit 16 bits. On success the parts that are set are runs
   * inside the input, in the order scheme, userinfo, host, port, path, query, fragment without overlap, each
   * exactly the characters the two machines assign to it, and `port` is the value of its run.
   */
  method ParseUrl(connect: bool, buf: seq<byte>) returns (ok: bool, u: Url, port: nat, ghost server: Option<Run>)
    requires |buf| <= 0xffff
    ensures ok <==> Accepts(connect, buf)
    ensures ok ==> Parsed(connect, buf, server, u) && InOrder(u) && Acceptable(connect, buf, server, u)
    ensures ok ==> forall f :: f in u ==> 0 < u[f].len && End(u[f]) <= |buf|
    ensures ok ==> port <= 0xffff && port == if FPort in u then PortNumber(buf, u[FPort]) else 0
    // success exactly for the texts of the forms, with the parts of the form and its port
    ensures ok <==> exists f :: Legal(connect, f) && Permits(connect, f) && UrlOf(f) == buf
    ensures ok ==> forall f :: Legal(connect, f) && UrlOf(f) == buf ==>
                     && u == FormRuns(f)
                     && port == if f.site.Some? && f.site.value.port.Some? then NumberOf(f.site.value.port.value) else 0
  {
    port := 0;
    AcceptsForms(connect, buf);
    if |buf| == 0 {
      return false, map[], 0, None;
    }
    ok, u, server := FindParts(connect, buf);
    if !ok {
      return;
    }
    forall f | f in u ensures 0 < u[f].len && End(u[f]) <= |buf| {
      PartsInside(connect, buf, server, u, f);
    }
    ok, port := Finish(connect, buf, u, server);
    Decides(connect, buf, server, u);
    if ok {
      forall f | Legal(connect, f) && UrlOf(f) == buf
        ensures u == FormRuns(f)
        ensures port == if f.site.Some? && f.site.value.port.Some? then NumberOf(f.site.value.port.value) else 0
      {
        PartsOfForm(connect, f, server, u);
        PortOfForm(connect, f, port);
      }
    }
  }

  /** The checks after the scans. */
  method Finish(connect: bool, buf: seq<byte>, u: Url, ghost server: Option<Run>) returns (ok: bool, port: nat)
    requires Parsed(connect, buf, server, u)
    ensures ok <==> Permitted(connect, buf, u)
    ensures ok ==> port <= 0xffff && port == if FPort in u then PortNumber(buf, u[FPort]) else 0
  {
    port := 0;
    if connect && u.Keys != {FHost, FPort} {
      return false, 0;
    }
    if FPort in u {
      assert FPort in HostParts(u);
      PortDigits(AtSeen(connect, buf, |buf|), buf, server.value.off, End(server.value), HostParts(u));
      ok, port := PortValue(buf, u[FPort]);
      return;
    }
    ok := true;
  }
}
