/** The forms of a URL as texts put together from their parts. A URL is accepted exactly when it is such a text. */
module UrlForms {
  import opened Bytes
  import opened UrlGrammar
  import opened UrlScans
  import opened UrlOutlines
  import opened ServerOutlines

  // ---------------------------------------------------------------------------
  // The forms.

  datatype HostForm = Name(name: text) | Address(address: text, zone: Option<text>)

  datatype Site = Site(userinfo: Option<text>, host: HostForm, port: Option<text>)

  /** A scheme with a site, or neither; with CONNECT a site alone. `hashes` counts the `#` before the fragment. */
  datatype Form = Form(scheme: text, site: Option<Site>, path: text, query: Option<text>, hashes: nat, fragment: text)

  function UserinfoOf(s: Site): text {
    if s.userinfo.Some? then s.userinfo.value + [AT] else []
  }

  function HostOf(h: HostForm): text {
    match h
    case Name(name) => name
    case Address(address, zone) => [OPEN] + (address + if zone.Some? then [ZONE] + zone.value else []) + [CLOSE]
  }

  function SiteOf(s: Site): text {
    UserinfoOf(s) + HostOf(s.host) + if s.port.Some? then [COLON] + s.port.value else []
  }

  function SchemeOf(f: Form): text {
    if f.scheme != [] then f.scheme + [COLON, SLASH, SLASH] else []
  }

  function RestOf(f: Form): text {
    f.path + ((if f.query.Some? then [QUESTION] + f.query.value else []) + (Hashes(f.hashes) + f.fragment))
  }

  function UrlOf(f: Form): text {
    SchemeOf(f) + (if f.site.Some? then SiteOf(f.site.value) else []) + RestOf(f)
  }

  predicate LegalHost(h: HostForm) {
    match h
    case Name(name) => name != [] && NameText(name)
    case Address(address, zone) =>
      address != [] && AddressText(address) && (zone.Some? ==> zone.value != [] && ZoneText(zone.value))
  }

  predicate LegalSite(s: Site) {
    && (s.userinfo.Some? ==> UserinfoText(s.userinfo.value)) && LegalHost(s.host)
    && (s.port.Some? ==> s.port.value != [] && DigitText(s.port.value))
  }

  /** The parts have their own characters. Without a site there is a path, which begins with a slash or is a star; with
      one the path is empty or begins with a slash, and a fragment needs a path or a query before it. */
  predicate Legal(connect: bool, f: Form) {
    && Letters(f.scheme) && (connect ==> f.scheme == []) && (f.site.Some? <==> connect || f.scheme != [])
    && (f.site.Some? ==> LegalSite(f.site.value))
    && UrlText(f.path)
    && (if f.site.Some? then f.path == [] || f.path[0] == SLASH
        else f.path != [] && (f.path[0] == SLASH || f.path[0] == STAR))
    && (f.query.Some? ==> QueryText(f.query.value))
    && (f.hashes > 0 ==> f.path != [] || f.query.Some?)
    && (f.fragment != [] ==> f.hashes > 0) && FragmentText(f.fragment)
  }

  /** The characters of the parts. */
  lemma CharacterSets(c: byte)
    ensures IsAlpha(c) <==> 'A' <= c as char <= 'Z' || 'a' <= c as char <= 'z'
    ensures IsDigit(c) <==> '0' <= c as char <= '9'
    ensures IsAlphaNum(c) <==> IsAlpha(c) || IsDigit(c)
    ensures IsHexDigit(c) <==> IsDigit(c) || 'A' <= c as char <= 'F' || 'a' <= c as char <= 'f'
    ensures IsUserinfoChar(c) <==> IsAlphaNum(c) || c as char in "-_.!~*'()%;:&=+$,"
    ensures IsHostChar(c) <==> IsAlphaNum(c) || c as char in ".-"
    ensures IsZoneChar(c) <==> IsAlphaNum(c) || c as char in "%.-_~"
    ensures IsUrlChar(c) <==> '!' <= c as char <= '~' && c as char !in "#?"
  {
  }

  /** The number that digits stand for. */
  function NumberOf(digits: text): nat
    requires DigitText(digits)
  {
    Decimal(digits, 0, |digits|)
  }

  /** A port is less than 65536. With CONNECT there is a host with a port, and no part besides. */
  predicate Permits(connect: bool, f: Form)
    requires Legal(connect, f)
  {
    && (f.site.Some? && f.site.value.port.Some? ==> NumberOf(f.site.value.port.value) <= 0xffff)
    && (connect ==>
          && f.site.value.port.Some? && (f.site.value.userinfo == None || f.site.value.userinfo == Some([]))
          && f.path == [] && (f.query == None || f.query == Some([])) && f.fragment == [])
  }

  // ---------------------------------------------------------------------------
  // Where the parts are.

  function PartIn(f: Form, p: Field): text {
    match p
    case FScheme => f.scheme
    case FUserinfo => if f.site.Some? && f.site.value.userinfo.Some? then f.site.value.userinfo.value else []
    case FHost => if f.site.Some? then HostIn(f.site.value.host) else []
    case FPort => if f.site.Some? && f.site.value.port.Some? then f.site.value.port.value else []
    case FPath => f.path
    case FQuery => if f.query.Some? then f.query.value else []
    case FFragment => f.fragment
  }

  /** The host without its brackets. */
  function HostIn(h: HostForm): text {
    match h
    case Name(name) => name
    case Address(address, zone) => address + if zone.Some? then [ZONE] + zone.value else []
  }

  function SchemeLength(f: Form): nat {
    if f.scheme != [] then |f.scheme| + 3 else 0
  }

  function SiteLength(f: Form): nat {
    if f.site.Some? then |SiteOf(f.site.value)| else 0
  }

  function Begins(f: Form, p: Field): nat {
    match p
    case FScheme => 0
    case FUserinfo => SchemeLength(f)
    case FHost =>
      if f.site.Some? then
        SchemeLength(f) + |UserinfoOf(f.site.value)| + (if f.site.value.host.Address? then 1 else 0)
      else 0
    case FPort =>
      if f.site.Some? then SchemeLength(f) + |UserinfoOf(f.site.value)| + |HostOf(f.site.value.host)| + 1 else 0
    case FPath => SchemeLength(f) + SiteLength(f)
    case FQuery => SchemeLength(f) + SiteLength(f) + |f.path| + 1
    case FFragment =>
      SchemeLength(f) + SiteLength(f) + |f.path| + (if f.query.Some? then 1 + |f.query.value| else 0) + f.hashes
  }

  /** The runs of the parts that are not empty. */
  function FormRuns(f: Form): Url {
    map p | p in {FScheme, FUserinfo, FHost, FPort, FPath, FQuery, FFragment} && PartIn(f, p) != [] ::
      Run(Begins(f, p), |PartIn(f, p)|)
  }

  // ---------------------------------------------------------------------------
  // Forms and outlines.

  function AuthorityOf(s: Site): Authority {
    var userinfo := if s.userinfo.Some? then s.userinfo.value else [];
    var port := if s.port.Some? then s.port.value else [];
    match s.host
    case Name(name) => Authority(userinfo, s.userinfo.Some?, false, name, None, false, s.port.Some?, port)
    case Address(address, zone) => Authority(userinfo, s.userinfo.Some?, true, address, zone, true, s.port.Some?, port)
  }

  function OutlineOf(f: Form): Outline {
    Outline(f.scheme, if f.scheme != [] then 3 else 0, if f.site.Some? then SiteOf(f.site.value) else [], f.path,
      f.query, f.hashes, f.fragment)
  }

  lemma SiteIsServer(s: Site)
    ensures SiteOf(s) == ServerOf(AuthorityOf(s))
  {
    var a := AuthorityOf(s);
    assert LeadText(a) == UserinfoOf(s) + if s.host.Address? then [OPEN] else [];
    assert HostText(a) == HostIn(s.host);
    assert PortText(a) == (if s.host.Address? then [CLOSE] else []) + if s.port.Some? then [COLON] + s.port.value
           else [];
  }

  lemma UrlIsOutline(f: Form)
    ensures UrlOf(f) == OutlineText(OutlineOf(f))
  {
    var o := OutlineOf(f);
    assert Delimiter(3) == [COLON, SLASH, SLASH];
    assert FrontText(o) == SchemeOf(f) + o.server;
    assert RestOf(f) == o.path + TailText(o);
    assert SchemeOf(f) + o.server + (o.path + TailText(o)) == SchemeOf(f) + o.server + o.path + TailText(o);
  }

  /** The state behind the whole of a server part. */
  function SiteState(s: Site): HostState {
    if s.port.Some? then Port else if s.host.Address? then V6End else Host
  }

  lemma SiteShaped(s: Site)
    requires LegalSite(s)
    ensures ServerFits(s.userinfo.Some?, AuthorityOf(s), SiteState(s)) && Ends(SiteState(s))
  {
    assert ServerShaped(s.userinfo.Some?, AuthorityOf(s), SiteState(s));
  }

  /** The characters of a legal site; the `@` is the one behind the userinfo. */
  lemma SiteCharacters(s: Site)
    requires LegalSite(s)
    ensures ServerText(SiteOf(s)) && SiteOf(s) != [] && (AT in SiteOf(s) <==> s.userinfo.Some?)
  {
    var rest := HostOf(s.host) + if s.port.Some? then [COLON] + s.port.value else [];
    RestCharacters(s, rest);
    assert SiteOf(s) == UserinfoOf(s) + rest;
    OneAt(UserinfoOf(s), rest);
  }

  lemma RestCharacters(s: Site, rest: text)
    requires LegalSite(s) && rest == HostOf(s.host) + if s.port.Some? then [COLON] + s.port.value else []
    ensures rest != [] && forall c :: c in rest ==> c != AT && (IsUserinfoChar(c) || c == OPEN || c == CLOSE)
  {
    forall c | c in HostOf(s.host) ensures c != AT && (IsUserinfoChar(c) || c == OPEN || c == CLOSE) {
      HostCharacters(s.host, c);
    }
  }

  lemma HostCharacters(h: HostForm, c: byte)
    requires LegalHost(h) && c in HostOf(h)
    ensures c != AT && (IsUserinfoChar(c) || c == OPEN || c == CLOSE)
  {
  }

  lemma OneAt(lead: text, rest: text)
    requires lead != [] ==> lead[|lead| - 1] == AT && UserinfoText(lead[..|lead| - 1])
    requires forall c :: c in rest ==> c != AT && (IsUserinfoChar(c) || c == OPEN || c == CLOSE)
    ensures ServerText(lead + rest) && (AT in lead + rest <==> lead != [])
  {
    var t := lead + rest;
    forall i | 0 <= i < |t| ensures (IsUserinfoChar(t[i]) && t[i] != AT) || t[i] == OPEN || t[i] == CLOSE ||
      (t[i] == AT && i == |lead| - 1) {
      if i < |lead| - 1 {
        assert t[i] == lead[..|lead| - 1][i];
        assert t[i] in lead[..|lead| - 1];
      } else if i >= |lead| {
        assert t[i] == rest[i - |lead|];
      }
    }
    assert lead != [] ==> t[|lead| - 1] == AT;
  }

  /** The state behind a whole URL. */
  function FormState(o: Outline): State {
    if o.fragment != [] then Fragment else if o.hashes > 0 then FragmentStart else AfterQuery(o)
  }

  lemma FormShaped(connect: bool, f: Form)
    requires Legal(connect, f)
    ensures Fits(connect, OutlineOf(f), FormState(OutlineOf(f)))
  {
    if f.site.Some? {
      SiteCharacters(f.site.value);
    }
    assert Shaped(connect, OutlineOf(f), FormState(OutlineOf(f)));
  }

  /** The first machine reads a form to its end. */
  lemma FormRead(connect: bool, f: Form)
    requires Legal(connect, f)
    ensures var (buf, o) := (UrlOf(f), OutlineOf(f));
            && StateAt(connect, buf, |buf|) != Dead && Exact(connect, buf, OutlineRuns(o), |buf|)
            && (AtSeen(connect, buf, |buf|) <==> AT in o.server)
  {
    var buf, o := UrlOf(f), OutlineOf(f);
    UrlIsOutline(f);
    FormShaped(connect, f);
    assert buf[..|buf|] == buf;
    ReadsEach(connect, buf, |buf|, o, FormState(o));
    ReadsMeans(connect, buf, |buf|, o);
  }

  /** The second machine reads the site to its end. */
  lemma SiteRead(found: bool, buf: text, first: nat, n: nat, s: Site)
    requires LegalSite(s) && found == s.userinfo.Some? && first <= n <= |buf| && buf[first..n] == SiteOf(s)
    ensures Ends(HostStateAt(found, buf, first, n))
    ensures HostExact(found, buf, first, ServerRuns(AuthorityOf(s), first), n)
  {
    SiteIsServer(s);
    SiteShaped(s);
    ReadsEachServer(found, buf, first, n, AuthorityOf(s), SiteState(s));
    ReadsServerMeans(found, buf, first, n, AuthorityOf(s));
  }

  lemma SiteHasHost(s: Site, first: nat)
    requires LegalSite(s)
    ensures FHost in ServerRuns(AuthorityOf(s), first)
  {
    SiteParts(s, FHost);
    ServerRunOf(AuthorityOf(s), first, FHost);
  }

  lemma Middle(front: text, middle: text, tail: text)
    ensures var t := front + middle + tail;
            |front| + |middle| <= |t| && t[|front|..|front| + |middle|] == middle
  {
  }

  lemma SiteInUrl(f: Form)
    requires f.site.Some?
    ensures var (buf, first, n) := (UrlOf(f), SchemeLength(f), SchemeLength(f) + SiteLength(f));
            n <= |buf| && buf[first..n] == SiteOf(f.site.value)
  {
    Middle(SchemeOf(f), SiteOf(f.site.value), RestOf(f));
  }

  /** The runs of a form are those of its outlines. */
  lemma FormRunOf(f: Form, p: Field)
    ensures p in FormRuns(f) <==> PartIn(f, p) != []
    ensures p in FormRuns(f) ==> FormRuns(f)[p] == Run(Begins(f, p), |PartIn(f, p)|)
  {
  }

  lemma SiteParts(s: Site, p: Field)
    requires p == FUserinfo || p == FHost || p == FPort
    ensures var a := AuthorityOf(s);
            match p
            case FUserinfo =>
              ServerPartOf(a, p) == (if s.userinfo.Some? then s.userinfo.value else []) && ServerOffset(a, p) == 0
            case FHost =>
              && ServerPartOf(a, p) == HostIn(s.host)
              && ServerOffset(a, p) == |UserinfoOf(s)| + if s.host.Address? then 1 else 0
            case FPort =>
              && ServerPartOf(a, p) == (if s.port.Some? then s.port.value else [])
              && ServerOffset(a, p) == |UserinfoOf(s)| + |HostOf(s.host)| + 1
  {
    var a := AuthorityOf(s);
    assert |Mark(a.at, AT)| == if s.userinfo.Some? then 1 else 0;
    assert |Mark(a.open, OPEN)| == |Mark(a.close, CLOSE)| == if s.host.Address? then 1 else 0;
  }

  lemma SiteRunsMerge(f: Form, p: Field)
    requires f.site.Some? && SiteOf(f.site.value) != []
    ensures SamePart(FormRuns(f), Merged(OutlineRuns(OutlineOf(f)),
            ServerRuns(AuthorityOf(f.site.value), SchemeLength(f))),
              p)
  {
    var (o, a, first) := (OutlineOf(f), AuthorityOf(f.site.value), SchemeLength(f));
    FormRunOf(f, p);
    RunOf(o, p);
    ServerRunOf(a, first, p);
    if p == FUserinfo || p == FHost || p == FPort {
      SiteParts(f.site.value, p);
    } else {
      assert PartOf(o, p) == PartIn(f, p) && ServerPartOf(a, p) == [];
      assert p == FScheme || PlaceOf(o, p) == Begins(f, p);
    }
  }

  lemma PlainRuns(f: Form, p: Field)
    requires f.site.None?
    ensures SamePart(FormRuns(f), OutlineRuns(OutlineOf(f)), p)
  {
    FormRunOf(f, p);
    RunOf(OutlineOf(f), p);
    assert PartIn(f, p) == PartOf(OutlineOf(f), p);
  }

  /** Where the site is in the text. */
  function SiteRun(f: Form): Option<Run> {
    if f.site.Some? then Some(Run(SchemeLength(f), SiteLength(f))) else None
  }

  lemma FormMerged(f: Form)
    requires f.site.Some? && SiteOf(f.site.value) != []
    ensures FormRuns(f) == Merged(OutlineRuns(OutlineOf(f)), ServerRuns(AuthorityOf(f.site.value), SchemeLength(f)))
  {
    var v := Merged(OutlineRuns(OutlineOf(f)), ServerRuns(AuthorityOf(f.site.value), SchemeLength(f)));
    forall p ensures SamePart(FormRuns(f), v, p) {
      SiteRunsMerge(f, p);
    }
    UrlScans.SameParts(FormRuns(f), v);
  }

  lemma FormPlain(f: Form)
    requires f.site.None?
    ensures FormRuns(f) == OutlineRuns(OutlineOf(f)) && FHost !in OutlineRuns(OutlineOf(f))
  {
    forall p ensures SamePart(FormRuns(f), OutlineRuns(OutlineOf(f)), p) {
      PlainRuns(f, p);
    }
    RunOf(OutlineOf(f), FHost);
    UrlScans.SameParts(FormRuns(f), OutlineRuns(OutlineOf(f)));
  }

  /** Where the first machine finds the site. */
  lemma SiteFound(f: Form)
    requires f.site.Some? && SiteOf(f.site.value) != []
    ensures FHost in OutlineRuns(OutlineOf(f)) && OutlineRuns(OutlineOf(f))[FHost] == SiteRun(f).value
  {
    RunOf(OutlineOf(f), FHost);
  }

  lemma MergedScanned(connect: bool, buf: text, u: Url, v: Url, run: Run)
    requires Exact(connect, buf, u, |buf|) && FHost in u && u[FHost] == run && End(run) <= |buf|
    requires StateAt(connect, buf, |buf|) != Dead && FHost in v
    requires HostExact(AtSeen(connect, buf, |buf|), buf, run.off, v, End(run))
    requires Ends(HostStateAt(AtSeen(connect, buf, |buf|), buf, run.off, End(run)))
    ensures Parsed(connect, buf, Some(run), Merged(u, v)) && Scannable(connect, buf, Some(run), Merged(u, v))
  {
    MergedParsed(connect, buf, u, v);
  }

  lemma SiteFormParsed(connect: bool, f: Form)
    requires Legal(connect, f) && f.site.Some?
    ensures Parsed(connect, UrlOf(f), SiteRun(f), FormRuns(f))
    ensures Scannable(connect, UrlOf(f), SiteRun(f), FormRuns(f))
  {
    var run, site := SiteRun(f).value, f.site.value;
    FormRead(connect, f);
    SiteCharacters(site);
    SiteInUrl(f);
    SiteFound(f);
    FormMerged(f);
    SiteMerged(connect, UrlOf(f), OutlineRuns(OutlineOf(f)), run, site);
  }

  lemma SiteMerged(connect: bool, buf: text, u: Url, run: Run, site: Site)
    requires Exact(connect, buf, u, |buf|) && FHost in u && u[FHost] == run && End(run) <= |buf|
    requires StateAt(connect, buf, |buf|) != Dead && (AtSeen(connect, buf, |buf|) <==> site.userinfo.Some?)
    requires LegalSite(site) && buf[run.off..End(run)] == SiteOf(site)
    ensures var w := Merged(u, ServerRuns(AuthorityOf(site), run.off));
            Parsed(connect, buf, Some(run), w) && Scannable(connect, buf, Some(run), w)
  {
    SiteHasHost(site, run.off);
    SiteRead(AtSeen(connect, buf, |buf|), buf, run.off, End(run), site);
    MergedScanned(connect, buf, u, ServerRuns(AuthorityOf(site), run.off), run);
  }

  lemma PlainFormParsed(connect: bool, f: Form)
    requires Legal(connect, f) && f.site.None?
    ensures Parsed(connect, UrlOf(f), SiteRun(f), FormRuns(f))
    ensures Scannable(connect, UrlOf(f), SiteRun(f), FormRuns(f))
  {
    FormRead(connect, f);
    FormRunOf(f, FScheme);
    FormPlain(f);
    PlainParsed(connect, UrlOf(f), OutlineRuns(OutlineOf(f)));
  }

  /** The parts of a legal form are found where they are in its text. */
  lemma FormParsed(connect: bool, f: Form)
    requires Legal(connect, f)
    ensures Parsed(connect, UrlOf(f), SiteRun(f), FormRuns(f))
    ensures Scannable(connect, UrlOf(f), SiteRun(f), FormRuns(f))
  {
    if f.site.Some? {
      SiteFormParsed(connect, f);
    } else {
      PlainFormParsed(connect, f);
    }
  }

  // ---------------------------------------------------------------------------
  // Ports, and what CONNECT allows.

  lemma {:induction false} DecimalIn(buf: text, first: nat, n: nat, digits: text)
    requires first + n <= |buf| && n <= |digits| && DigitText(digits) && buf[first..first + n] == digits[..n]
    ensures forall k :: first <= k < first + n ==> IsDigit(buf[k])
    ensures forall k :: 0 <= k < n ==> IsDigit(digits[k])
    ensures Decimal(buf, first, first + n) == Decimal(digits, 0, n)
  {
    forall k | first <= k < first + n ensures IsDigit(buf[k]) {
      assert buf[k] == buf[first..first + n][k - first] == digits[..n][k - first];
    }
    if n > 0 {
      assert buf[first..first + (n - 1)] == buf[first..first + n][..n - 1] == digits[..n][..n - 1] == digits[..n - 1];
      assert buf[first + n - 1] == buf[first..first + n][n - 1] == digits[..n][n - 1];
      DecimalIn(buf, first, n - 1, digits);
    }
  }

  lemma PortInSite(s: Site)
    requires s.port.Some?
    ensures var n := |UserinfoOf(s)| + |HostOf(s.host)| + 1;
            n + |s.port.value| == |SiteOf(s)| && SiteOf(s)[n..] == s.port.value
  {
    assert SiteOf(s) == UserinfoOf(s) + HostOf(s.host) + [COLON] + s.port.value;
  }

  lemma PortInUrl(f: Form, port: text)
    requires f.site.Some? && f.site.value.port == Some(port)
    ensures var (buf, first) := (UrlOf(f), Begins(f, FPort));
            first + |port| <= |buf| && buf[first..first + |port|] == port
  {
    SiteInUrl(f);
    PortInSite(f.site.value);
    InnerSlice(UrlOf(f), SchemeLength(f), SchemeLength(f) + SiteLength(f), SiteOf(f.site.value),
      Begins(f, FPort) - SchemeLength(f));
  }

  lemma InnerSlice(buf: text, first: nat, n: nat, t: text, k: nat)
    requires first <= n <= |buf| && buf[first..n] == t && k <= |t|
    ensures buf[first + k..n] == t[k..]
  {
  }

  lemma PortPermitted(f: Form, port: text)
    requires f.site.Some? && f.site.value.port == Some(port) && port != [] && DigitText(port)
    ensures FPort in FormRuns(f) && Digits(UrlOf(f), FormRuns(f)[FPort])
    ensures PortNumber(UrlOf(f), FormRuns(f)[FPort]) == NumberOf(port)
  {
    FormRunOf(f, FPort);
    PortInUrl(f, port);
    PortValueIs(UrlOf(f), FormRuns(f)[FPort], port);
  }

  lemma PortValueIs(buf: text, run: Run, port: text)
    requires DigitText(port) && run.len == |port| && End(run) <= |buf| && buf[run.off..End(run)] == port
    ensures Digits(buf, run) && PortNumber(buf, run) == NumberOf(port)
  {
    assert port[..|port|] == port;
    DecimalIn(buf, run.off, |port|, port);
  }

  lemma FormPermitted(connect: bool, f: Form)
    requires Legal(connect, f)
    ensures Permitted(connect, UrlOf(f), FormRuns(f)) <==> Permits(connect, f)
  {
    FormRunOf(f, FPort);
    if f.site.Some? && f.site.value.port.Some? {
      PortPermitted(f, f.site.value.port.value);
    }
    if connect {
      ConnectKeys(f);
    }
  }

  lemma ConnectKeys(f: Form)
    requires Legal(true, f)
    ensures FormRuns(f).Keys == {FHost, FPort} <==>
            && f.site.value.port.Some? && (f.site.value.userinfo == None || f.site.value.userinfo == Some([]))
            && f.path == [] && (f.query == None || f.query == Some([])) && f.fragment == []
  {
    forall p ensures p in FormRuns(f) <==> PartIn(f, p) != [] {
      FormRunOf(f, p);
    }
    assert PartIn(f, FHost) != [] && PartIn(f, FScheme) == [];
    if FormRuns(f).Keys == {FHost, FPort} {
      assert FPort in FormRuns(f) && FUserinfo !in FormRuns(f) && FPath !in FormRuns(f) && FQuery !in FormRuns(f);
      assert FFragment !in FormRuns(f);
    } else if PartIn(f, FPort) != [] && PartIn(f, FUserinfo) == [] && f.path == [] && PartIn(f, FQuery) == [] &&
      f.fragment == [] {
      forall p ensures p in FormRuns(f).Keys <==> p in {FHost, FPort} {
        assert p in FormRuns(f) <==> PartIn(f, p) != [];
      }
      assert false;
    }
  }

  lemma NumberNext(digits: text, d: byte)
    requires DigitText(digits) && IsDigit(d)
    ensures DigitText(digits + [d]) && NumberOf([]) == 0
    ensures NumberOf(digits + [d]) == 10 * NumberOf(digits) + (d as int - '0' as int)
  {
    var more := digits + [d];
    assert more[0..0 + |digits|] == digits[..|digits|];
    DecimalIn(more, 0, |digits|, digits);
  }

  // ---------------------------------------------------------------------------
  // Every accepted URL is a form.

  function SiteFrom(a: Authority): Site {
    Site(if a.at then Some(a.userinfo) else None, if a.open then Address(a.host, a.zone) else Name(a.host),
      if a.colon then Some(a.port) else None)
  }

  lemma SiteBack(found: bool, a: Authority, s: HostState)
    requires ServerShaped(found, a, s) && Ends(s)
    ensures LegalSite(SiteFrom(a)) && AuthorityOf(SiteFrom(a)) == a
  {
  }

  /** The form of an outline, with the site if there is one. */
  function FormFrom(o: Outline, site: Option<Site>): Form {
    Form(o.scheme, site, o.path, o.query, o.hashes, o.fragment)
  }

  lemma FormBack(connect: bool, o: Outline, s: State, site: Option<Site>)
    requires Shaped(connect, o, s) && OutlineText(o) != []
    requires if site.Some? then LegalSite(site.value) && o.server == SiteOf(site.value) != []
             else o.server == [] && o.scheme == [] && !connect
    ensures Legal(connect, FormFrom(o, site)) && UrlOf(FormFrom(o, site)) == OutlineText(o)
  {
    assert OutlineText(EMPTY) == [];
    UrlIsOutline(FormFrom(o, site));
  }

  lemma ServerPartIs(connect: bool, buf: text, o: Outline, server: Option<Run>)
    requires o.slashes <= 3 && Exact(connect, buf, OutlineRuns(o), |buf|) && ServerPart(connect, buf, server)
    ensures server == if o.server == [] then None else Some(Run(PlaceOf(o, FHost), |o.server|))
  {
    RunOf(o, FHost);
    assert PartExact(connect, buf, OutlineRuns(o), |buf|, FHost);
    ServerUnique(connect, buf, server, if o.server == [] then None else Some(Run(PlaceOf(o, FHost), |o.server|)));
  }

  lemma ServerInText(o: Outline)
    requires o.slashes <= 3
    ensures var n := PlaceOf(o, FHost);
            n + |o.server| <= |OutlineText(o)| && OutlineText(o)[n..n + |o.server|] == o.server
  {
    assert OutlineText(o) == o.scheme + Delimiter(o.slashes) + o.server + (o.path + TailText(o));
  }

  lemma SiteSome(found: bool, buf: text, first: nat, n: nat) returns (site: Site)
    requires first <= n <= |buf| && Ends(HostStateAt(found, buf, first, n))
    ensures LegalSite(site) && SiteOf(site) == buf[first..n]
  {
    var a := ReadsSomeServer(found, buf, first, n);
    ReadsServerMeans(found, buf, first, n, a);
    SiteBack(found, a, HostStateAt(found, buf, first, n));
    site := SiteFrom(a);
    SiteIsServer(site);
  }

  /** What the machines accept is the text of a legal form. */
  lemma ScannedIsForm(connect: bool, buf: text, server: Option<Run>, u: Url) returns (f: Form)
    requires buf != [] && Parsed(connect, buf, server, u) && Scannable(connect, buf, server, u)
    requires connect ==> server.Some?
    ensures Legal(connect, f) && UrlOf(f) == buf
  {
    var o := ReadsSome(connect, buf, |buf|);
    ReadsMeans(connect, buf, |buf|, o);
    assert buf[..|buf|] == buf;
    ServerPartIs(connect, buf, o, server);
    var site := None;
    if server.Some? {
      ServerInText(o);
      var t := SiteSome(AtSeen(connect, buf, |buf|), buf, server.value.off, End(server.value));
      site := Some(t);
    } else {
      RunOf(o, FScheme);
      assert PartExact(connect, buf, OutlineRuns(o), |buf|, FScheme) && PartExact(connect, buf, u, |buf|, FScheme);
      PartUnique(connect, buf, OutlineRuns(o), u, FScheme);
    }
    FormBack(connect, o, StateAt(connect, buf, |buf|), site);
    f := FormFrom(o, site);
  }

  // ---------------------------------------------------------------------------
  // Main results.

  /** The text is that of a form that is legal and permitted. */
  ghost predicate IsForm(connect: bool, buf: text) {
    exists f :: Legal(connect, f) && Permits(connect, f) && UrlOf(f) == buf
  }

  /** A URL is accepted exactly when it is put together in one of the forms. */
  lemma AcceptsForms(connect: bool, buf: text)
    ensures Accepts(connect, buf) <==> IsForm(connect, buf)
  {
    if Accepts(connect, buf) {
      var server, u :| Parsed(connect, buf, server, u) && Acceptable(connect, buf, server, u);
      assert connect ==> FHost in u && server.Some? by {
        assert FHost in u ==> FHost in HostParts(u);
      }
      var f := ScannedIsForm(connect, buf, server, u);
      FormParsed(connect, f);
      FormPermitted(connect, f);
      ParsedUnique(connect, buf, server, u, SiteRun(f), FormRuns(f));
    }
    if f :| Legal(connect, f) && Permits(connect, f) && UrlOf(f) == buf {
      FormParsed(connect, f);
      FormPermitted(connect, f);
      FormNotEmpty(connect, f);
    }
  }

  lemma FormNotEmpty(connect: bool, f: Form)
    requires Legal(connect, f)
    ensures UrlOf(f) != []
  {
    if f.site.Some? {
      SiteCharacters(f.site.value);
    }
  }

  /** And its parts are then those of the form, where they are in the text. */
  lemma PartsOfForm(connect: bool, f: Form, server: Option<Run>, u: Url)
    requires Legal(connect, f) && Parsed(connect, UrlOf(f), server, u)
    ensures u == FormRuns(f)
  {
    FormParsed(connect, f);
    ParsedUnique(connect, UrlOf(f), server, u, SiteRun(f), FormRuns(f));
  }

  /** Its port is the number of its digits. */
  lemma PortOfForm(connect: bool, f: Form, port: nat)
    requires Legal(connect, f)
    requires FPort in FormRuns(f) ==>
               Digits(UrlOf(f), FormRuns(f)[FPort]) && port == PortNumber(UrlOf(f), FormRuns(f)[FPort])
    requires FPort !in FormRuns(f) ==> port == 0
    ensures port == if f.site.Some? && f.site.value.port.Some? then NumberOf(f.site.value.port.value) else 0
  {
    FormRunOf(f, FPort);
    if f.site.Some? && f.site.value.port.Some? {
      PortPermitted(f, f.site.value.port.value);
    }
  }
}
