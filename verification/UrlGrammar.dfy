/** The two state machines of the URL parser: one for the whole URL, one for its server part. */
module UrlGrammar {
  import opened Bytes

  // ---------------------------------------------------------------------------
  // Characters.

  predicate IsAlphaNum(c: byte) { IsAlpha(c) || IsDigit(c) }

  /** One of `-_.!~*'()`. */
  predicate IsMark(c: byte) {
    c == 45 || c == 95 || c == 46 || c == 33 || c == 126 || c == 42 || c == 39 || c == 40 || c == 41
  }

  /** A letter, a digit, a mark, or one of `%;:&=+$,`. */
  predicate IsUserinfoChar(c: byte) {
    IsAlphaNum(c) || IsMark(c) || c == 37 || c == 59 || c == 58 || c == 38 || c == 61 || c == 43 || c == 36 || c == 44
  }

  /** The printable characters other than the space, `#` and `?`. */
  predicate IsUrlChar(c: byte) { 33 <= c <= 126 && c != 35 && c != 63 }

  /** A letter, a digit, `.` or `-`. */
  predicate IsHostChar(c: byte) { IsAlphaNum(c) || c == 46 || c == 45 }

  // ---------------------------------------------------------------------------
  // The whole URL.

  datatype State =
    | Dead | BeforeUrl
    | Schema | SchemaSlash | SchemaSlashSlash
    | ServerStart | Server | ServerWithAt
    | Path | QueryStart | Query | FragmentStart | Fragment

  function InServer(ch: byte): State {
    if ch == 47 then Path
    else if ch == 63 then QueryStart
    else if ch == 64 then ServerWithAt
    else if IsUserinfoChar(ch) || ch == 91 || ch == 93 then Server
    else Dead
  }

  function InQuery(ch: byte): State {
    if IsUrlChar(ch) || ch == 63 then Query else if ch == 35 then FragmentStart else Dead
  }

  /** `parse_url_char`. */
  function Next(s: State, ch: byte): State {
    // space, CR, LF, tab and form feed end it
    if ch == 32 || ch == 13 || ch == 10 || ch == 9 || ch == 12 then Dead
    else match s
      case BeforeUrl => if ch == 47 || ch == 42 then Path else if IsAlpha(ch) then Schema else Dead
      case Schema => if IsAlpha(ch) then Schema else if ch == 58 then SchemaSlash else Dead
      case SchemaSlash => if ch == 47 then SchemaSlashSlash else Dead
      case SchemaSlashSlash => if ch == 47 then ServerStart else Dead
      case ServerWithAt => if ch == 64 then Dead else InServer(ch)
      case ServerStart => InServer(ch)
      case Server => InServer(ch)
      case Path => if IsUrlChar(ch) then Path else if ch == 63 then QueryStart else if ch == 35 then FragmentStart
        else Dead
      case QueryStart => InQuery(ch)
      case Query => InQuery(ch)
      case FragmentStart =>
        if IsUrlChar(ch) || ch == 63 then Fragment else if ch == 35 then FragmentStart else Dead
      case Fragment => if IsUrlChar(ch) || ch == 63 || ch == 35 then Fragment else Dead
      case Dead => Dead
  }

  /** The parts of a URL. */
  datatype Field = FScheme | FUserinfo | FHost | FPort | FPath | FQuery | FFragment

  /** The part that a character belongs to, by the state after it. Delimiters belong to none. */
  function FieldOf(s: State): Option<Field> {
    match s
    case Schema => Some(FScheme)
    case Server => Some(FHost)
    case ServerWithAt => Some(FHost)
    case Path => Some(FPath)
    case Query => Some(FQuery)
    case Fragment => Some(FFragment)
    case _ => None
  }

  /** How far into a URL a state is. */
  function Rank(s: State): nat {
    match s
    case BeforeUrl => 0
    case Schema => 1
    case SchemaSlash => 2
    case SchemaSlashSlash => 3
    case ServerStart => 4
    case Server => 5
    case ServerWithAt => 5
    case Path => 6
    case QueryStart => 7
    case Query => 8
    case FragmentStart => 9
    case Fragment => 10
    case Dead => 11
  }

  lemma RankGrows(s: State, ch: byte)
    ensures Rank(s) <= Rank(Next(s, ch))
  {
  }

  function StateAt(connect: bool, buf: seq<byte>, i: nat): State
    requires i <= |buf|
  {
    if i == 0 then (if connect then ServerStart else BeforeUrl) else Next(StateAt(connect, buf, i - 1), buf[i - 1])
  }

  /** Over any input the machine never goes back: once it has left a part it cannot return to it. */
  lemma {:induction false} NeverBack(connect: bool, buf: seq<byte>, i: nat, j: nat)
    requires i <= j <= |buf|
    ensures Rank(StateAt(connect, buf, i)) <= Rank(StateAt(connect, buf, j))
  {
    if i < j {
      NeverBack(connect, buf, i, j - 1);
      RankGrows(StateAt(connect, buf, j - 1), buf[j - 1]);
    }
  }

  /** The part that the character at `k` belongs to. */
  function PartAt(connect: bool, buf: seq<byte>, k: nat): Option<Field>
    requires k < |buf|
  {
    FieldOf(StateAt(connect, buf, k + 1))
  }

  lemma {:induction false} DeadStays(connect: bool, buf: seq<byte>, i: nat, j: nat)
    requires i <= j <= |buf| && StateAt(connect, buf, i) == Dead
    ensures StateAt(connect, buf, j) == Dead
  {
    if i < j {
      DeadStays(connect, buf, i, j - 1);
    }
  }

  /** The server part had an `@`. */
  predicate AtSeen(connect: bool, buf: seq<byte>, n: nat)
    requires n <= |buf|
  {
    n > 0 && (StateAt(connect, buf, n) == ServerWithAt || AtSeen(connect, buf, n - 1))
  }

  // ---------------------------------------------------------------------------
  // The server part.

  datatype HostState =
    | HostDead | UserinfoStart | Userinfo | HostStart
    | V6Start | Host | V6 | V6ZoneStart | V6Zone | V6End | PortStart | Port

  function AfterHost(ch: byte): HostState {
    if ch == 58 then PortStart else HostDead
  }

  function InV6(ch: byte): HostState {
    if IsHexDigit(ch) || ch == 58 || ch == 46 then V6 else HostDead
  }

  function InZone(ch: byte): HostState {
    if IsAlphaNum(ch) || ch == 37 || ch == 46 || ch == 45 || ch == 95 || ch == 126 then V6Zone else HostDead
  }

  /** `http_parse_host_char`. */
  function HostNext(s: HostState, ch: byte): HostState {
    match s
    case UserinfoStart => if ch == 64 then HostStart else if IsUserinfoChar(ch) then Userinfo else HostDead
    case Userinfo => if ch == 64 then HostStart else if IsUserinfoChar(ch) then Userinfo else HostDead
    case HostStart => if ch == 91 then V6Start else if IsHostChar(ch) then Host else HostDead
    case Host => if IsHostChar(ch) then Host else AfterHost(ch)
    case V6End => AfterHost(ch)
    case V6 => if ch == 93 then V6End else if InV6(ch) == V6 then V6 else if ch == 37 then V6ZoneStart else HostDead
    case V6Start => InV6(ch)
    case V6Zone => if ch == 93 then V6End else InZone(ch)
    case V6ZoneStart => InZone(ch)
    case Port => if IsDigit(ch) then Port else HostDead
    case PortStart => if IsDigit(ch) then Port else HostDead
    case HostDead => HostDead
  }

  function HostFieldOf(s: HostState): Option<Field> {
    match s
    case Userinfo => Some(FUserinfo)
    case Host => Some(FHost)
    case V6 => Some(FHost)
    case V6ZoneStart => Some(FHost)
    case V6Zone => Some(FHost)
    case Port => Some(FPort)
    case _ => None
  }

  function HostRank(s: HostState): nat {
    match s
    case UserinfoStart => 0
    case Userinfo => 1
    case HostStart => 2
    case V6Start => 3
    case Host => 4
    case V6 => 5
    case V6ZoneStart => 6
    case V6Zone => 7
    case V6End => 8
    case PortStart => 9
    case Port => 10
    case HostDead => 11
  }

  lemma HostRankGrows(s: HostState, ch: byte)
    ensures HostRank(s) <= HostRank(HostNext(s, ch))
  {
  }

  /** The state after the characters from `first` to `i`. */
  function HostStateAt(at: bool, buf: seq<byte>, first: nat, i: nat): HostState
    requires first <= i <= |buf|
    decreases i - first
  {
    if i == first then (if at then UserinfoStart else HostStart)
      else HostNext(HostStateAt(at, buf, first, i - 1), buf[i - 1])
  }

  function HostPartAt(at: bool, buf: seq<byte>, first: nat, k: nat): Option<Field>
    requires first <= k < |buf|
  {
    HostFieldOf(HostStateAt(at, buf, first, k + 1))
  }

  lemma {:induction false} HostNeverBack(at: bool, buf: seq<byte>, first: nat, i: nat, j: nat)
    requires first <= i <= j <= |buf|
    ensures HostRank(HostStateAt(at, buf, first, i)) <= HostRank(HostStateAt(at, buf, first, j))
  {
    if i < j {
      HostNeverBack(at, buf, first, i, j - 1);
      HostRankGrows(HostStateAt(at, buf, first, j - 1), buf[j - 1]);
    }
  }

  lemma {:induction false} HostDeadStays(at: bool, buf: seq<byte>, first: nat, i: nat, j: nat)
    requires first <= i <= j <= |buf| && HostStateAt(at, buf, first, i) == HostDead
    ensures HostStateAt(at, buf, first, j) == HostDead
  {
    if i < j {
      HostDeadStays(at, buf, first, i, j - 1);
    }
  }

  /** A server part ends in a host name, behind the bracket of an address, or in a port. */
  predicate Ends(s: HostState) {
    s == Host || s == V6End || s == Port
  }

  // ---------------------------------------------------------------------------
  // Ports.

  /** The number that a run of digits stands for. */
  function Decimal(buf: seq<byte>, first: nat, last: nat): nat
    requires first <= last <= |buf| && forall k :: first <= k < last ==> IsDigit(buf[k])
  {
    if first == last then 0
    else
      assert IsDigit(buf[last - 1]);
      10 * Decimal(buf, first, last - 1) + (buf[last - 1] as int - 48)
  }

  lemma {:induction false} DecimalGrows(buf: seq<byte>, first: nat, i: nat, last: nat)
    requires first <= i <= last <= |buf| && forall k :: first <= k < last ==> IsDigit(buf[k])
    ensures Decimal(buf, first, i) <= Decimal(buf, first, last)
  {
    if i < last {
      DecimalGrows(buf, first, i, last - 1);
    }
  }
}
