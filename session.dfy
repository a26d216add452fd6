/**
 * The session authenticator of user.js: configuration of the session store
 * location, verification of a signed session cookie, the key under which the
 * session is stored, and extraction of the user id from the unpickled
 * session.
 *
 * Foreign computations are parameters: the HMAC-SHA1 hex digest (RFC 2104
 * section 2 over the SHA-1 of FIPS 180-4 section 6.1), the unpickler of the
 * stored blob, and the store lookup itself.
 */
module Session {
  import opened Wrappers
  import opened Text

  /** Length of the signature that prefixes a cookie: SHA-1's 160 bits as hex. */
  const SignatureLength: nat := 40

  /** A hex HMAC-SHA1 digest; SHA-1's output is 160 bits, so it is 40 characters long. */
  type HexDigest = s: string | |s| == SignatureLength
    witness "0000000000000000000000000000000000000000"

  /** HMAC-SHA1 keyed by its first argument, over its second, rendered as hex. */
  type Hmac = (string, string) -> HexDigest

  /** The object initUserRetrieval returns: the secret and the store location its getUser uses. */
  datatype Retrieval = Retrieval(secret: string, host: string, port: string)

  /**
   * initUserRetrieval: accepts `host:port[:...]` when the host is not blank
   * and the port field is a number to JavaScript's Number(); `port` keeps the
   * text that Number() read.
   */
  function InitUserRetrieval(secret: string, url: string): (r: Option<Retrieval>)
    ensures ':' !in url ==> r == None
    ensures ':' in url && !IsNumericText(Split(url, ':')[1]) ==> r == None
    ensures ':' in url && Trim(url[..IndexOf(url, ':')]) == "" ==> r == None
    ensures r.Some? ==> ':' in url && r.value.secret == secret
    ensures r.Some? ==> r.value.host != "" && ':' !in r.value.host
    ensures r.Some? ==> r.value.host == Trim(url[..IndexOf(url, ':')])
    ensures r.Some? ==> IsNumericText(r.value.port) && ':' !in r.value.port
    ensures r.Some? ==> r.value.port <= url[IndexOf(url, ':') + 1..]
    ensures r.Some? ==> r.value.port == Split(url, ':')[1]
    ensures r.None? ==> ':' !in url || !IsNumericText(Split(url, ':')[1]) || Trim(url[..IndexOf(url, ':')]) == ""
  {
    if IndexOf(url, ':') == -1 then None
    else
      var fields := Split(url, ':');
      if !IsNumericText(fields[1]) then None
      else
        var host := Trim(fields[0]);
        if |host| == 0 then None
        else
          SplitSecondField(url);
          assert ':' !in fields[0];
          assert ':' !in host;
          Some(Retrieval(secret, host, fields[1]))
  }

  /** The second `:`-separated field starts right after the first ':'. */
  lemma SplitSecondField(url: string)
    requires ':' in url
    ensures |Split(url, ':')| >= 2 && Split(url, ':')[1] <= url[IndexOf(url, ':') + 1..]
  {
    var i := IndexOf(url, ':');
    var rest := url[i + 1..];
    assert Split(url, ':') == [url[..i]] + Split(rest, ':');
    FirstFieldIsPrefix(rest, ':');
  }

  /** The first field of a split is a prefix of the text. */
  lemma FirstFieldIsPrefix(s: string, d: char)
    ensures Split(s, d)[0] <= s
  {
    if d in s {
      var k := IndexOf(s, d);
      assert Split(s, d)[0] == s[..k];
    }
  }

  /** A well-formed `host:port` configures the store at that host and port. */
  lemma InitUserRetrievalAccepts(secret: string, host: string, port: string)
    requires host != "" && ':' !in host && Trim(host) == host
    requires ':' !in port && IsDigits(port, 10)
    ensures InitUserRetrieval(secret, host + ":" + port) == Some(Retrieval(secret, host, port))
  {
    var url := host + ":" + port;
    SplitJoin([host, port], ':');
    assert Join([host, port], ':') == url;
    IndexOfAfterFreePrefix(host, ':', port);
    assert url[..|host|] == host;
    DigitsAreNumeric(port);
  }

  /** Number of positions at which two equally long strings differ. */
  function Mismatches(a: string, b: string): (n: nat)
    requires |a| == |b|
    ensures n <= |a|
    decreases |a|
  {
    if |a| == 0 then 0
    else
      Mismatches(a[..|a| - 1], b[..|b| - 1]) + (if a[|a| - 1] != b[|a| - 1] then 1 else 0)
  }

  /** Equal-length strings have no mismatches exactly when they are equal. */
  lemma {:induction false} MismatchesZeroIff(a: string, b: string)
    requires |a| == |b|
    ensures Mismatches(a, b) == 0 <==> a == b
    decreases |a|
  {
    if |a| > 0 {
      var n := |a| - 1;
      MismatchesZeroIff(a[..n], b[..n]);
      assert a == a[..n] + [a[n]] && b == b[..n] + [b[n]];
    }
  }

  /** The cookie carries the HMAC of its session-id part as its first 40 characters. */
  predicate SignatureChecks(secret: string, hmac: Hmac, cookie: string): (b: bool)
    ensures b <==> |cookie| >= SignatureLength
                   && hmac(secret, SubstrFrom(cookie, SignatureLength)) == Prefix(cookie, SignatureLength)
  {
    SignatureLength <= |cookie| && hmac(secret, cookie[SignatureLength..]) == cookie[..SignatureLength]
  }

  /**
   * getSessionId: checks that the first 40 characters of the cookie are the
   * HMAC of the rest and returns the rest. `hmacInput` records the message
   * the HMAC was computed over (None: no HMAC computed) and `comparisons` the
   * number of character positions the comparison loop examined.
   */
  method GetSessionId(secret: string, hmac: Hmac, cookie: string)
    returns (sessionId: Option<string>, ghost hmacInput: Option<string>, ghost comparisons: nat)
    ensures cookie == [] ==> sessionId == None && hmacInput == None
    ensures cookie != [] ==> hmacInput == Some(SubstrFrom(cookie, SignatureLength))
    ensures |cookie| < SignatureLength ==> sessionId == None && comparisons == 0
    ensures SignatureLength <= |cookie| ==> comparisons == SignatureLength
    ensures sessionId.Some? <==> SignatureChecks(secret, hmac, cookie)
    ensures sessionId.Some? ==> sessionId.value == cookie[SignatureLength..]
  {
    comparisons := 0;
    if |cookie| == 0 {
      return None, None, comparisons;
    }
    var possibleSessionId := SubstrFrom(cookie, SignatureLength);
    var signature := hmac(secret, possibleSessionId);
    hmacInput := Some(possibleSessionId);
    var givenSignature := Prefix(cookie, SignatureLength);
    var checker := 0;
    if |signature| != |givenSignature| {
      return None, hmacInput, comparisons;
    }
    for i := 0 to |signature|
      invariant checker == Mismatches(signature[..i], givenSignature[..i])
      invariant comparisons == i
    {
      assert signature[..i + 1][..i] == signature[..i];
      assert givenSignature[..i + 1][..i] == givenSignature[..i];
      if signature[i] != givenSignature[i] {
        checker := checker + 1;
      }
      comparisons := comparisons + 1;
    }
    assert signature[..|signature|] == signature;
    assert givenSignature[..|givenSignature|] == givenSignature;
    MismatchesZeroIff(signature, givenSignature);
    if checker > 0 {
      return None, hmacInput, comparisons;
    }
    return Some(possibleSessionId), hmacInput, comparisons;
  }

  /** The store key of a session: "beaker:" + sessionId + ":session". */
  function StoreKey(sessionId: string): (key: string)
    ensures |key| == |sessionId| + 15
    ensures key[..7] == "beaker:" && key[|key| - 8..] == ":session"
    ensures key[7..|key| - 8] == sessionId
  {
    "beaker:" + sessionId + ":session"
  }

  /** Distinct session ids are stored under distinct keys. */
  lemma StoreKeyInjective(a: string, b: string)
    requires StoreKey(a) == StoreKey(b)
    ensures a == b
  {
    var k := StoreKey(a);
    assert a == k[7..|k| - 8];
  }

  /** What the store hands back for a key: a failure, nothing (null), or the stored text. */
  datatype StoreReply = StoreFailed | KeyMissing | Stored(text: string)

  /** A value produced by unpickling a session: a dict, a list, a string, another atom, or None (null to JavaScript). */
  datatype Pickled =
    | PDict(entries: map<string, Pickled>)
    | PList(items: seq<Pickled>)
    | PStr(text: string)
    | PAtom
    | PNone

  /** The outcome of a JavaScript member access: a thrown TypeError, undefined, or a value. */
  datatype Access = Throws | Undefined | Value(v: Pickled)

  /** The session key that holds the authentication ticket. */
  const TicketKey: string := "repoze.who.tkt"
  /** The ticket entry that holds the user id. */
  const UserIdKey: string := "user.id"

  /**
   * `a[name]` for a property name that contains a '.', so that it is neither
   * an array index nor a property strings and arrays have of their own.
   */
  function Member(a: Access, name: string): (r: Access)
    requires '.' in name
    ensures a.Value? && a.v.PDict? && name in a.v.entries ==> r == Value(a.v.entries[name])
    ensures r.Value? ==> a.Value? && a.v.PDict? && name in a.v.entries
    ensures r == Throws <==> a == Throws || a == Undefined || a == Value(PNone)
  {
    match a
    case Throws => Throws
    case Undefined => Throws
    case Value(PNone) => Throws
    case Value(PDict(m)) => if name in m then Value(m[name]) else Undefined
    case Value(_) => Undefined
  }

  /** `a[0]`: the first list element, the first character of a string, or a dict's "0" entry. */
  function ElementZero(a: Access): (r: Access)
    ensures a.Value? && a.v.PList? && a.v.items != [] ==> r == Value(a.v.items[0])
    ensures a.Value? && a.v.PList? && a.v.items == [] ==> r == Undefined
    ensures r == Throws <==> a == Throws || a == Undefined || a == Value(PNone)
  {
    match a
    case Throws => Throws
    case Undefined => Throws
    case Value(PNone) => Throws
    case Value(PDict(m)) => if "0" in m then Value(m["0"]) else Undefined
    case Value(PList(items)) => if |items| > 0 then Value(items[0]) else Undefined
    case Value(PStr(s)) => if |s| > 0 then Value(PStr([s[0]])) else Undefined
    case Value(PAtom) => Undefined
  }

  /**
   * What getUser hands its callback: a user id, null, undefined (a user.id
   * list with no element 0), or nothing at all because the store callback
   * threw.
   */
  datatype UserResult = Identity(user: Pickled) | NoUser | UndefinedUser | Thrown

  /** The ticket-extraction chain: sessionData['repoze.who.tkt'][0]['user.id'][0]. */
  function ExtractUser(sessionData: Pickled): (r: UserResult)
    ensures sessionData == PNone ==> r == Thrown
    ensures !sessionData.PDict? && !sessionData.PNone? ==> r == NoUser
    ensures sessionData.PDict? && TicketKey !in sessionData.entries ==> r == NoUser
    ensures (sessionData.PDict? && TicketKey in sessionData.entries
             && sessionData.entries[TicketKey] == PList([])) ==> r == Thrown
    ensures (sessionData.PDict? && TicketKey in sessionData.entries
             && sessionData.entries[TicketKey].PList? && |sessionData.entries[TicketKey].items| > 0
             && sessionData.entries[TicketKey].items[0].PDict?) ==>
              var e := sessionData.entries[TicketKey].items[0].entries;
              && (UserIdKey !in e ==> r == NoUser)
              && (UserIdKey in e && e[UserIdKey].PList? && |e[UserIdKey].items| > 0 ==>
                    r == Identity(e[UserIdKey].items[0]))
    ensures r.Identity? ==> sessionData.PDict? && TicketKey in sessionData.entries
  {
    var ticket := Member(Value(sessionData), TicketKey);
    if ticket == Throws then Thrown
    else if ticket == Undefined then NoUser
    else
      var userId := Member(ElementZero(ticket), UserIdKey);
      if userId == Throws then Thrown
      else if userId == Undefined then NoUser
      else
        match ElementZero(userId)
        case Throws => Thrown
        case Undefined => UndefinedUser
        case Value(u) => Identity(u)
  }

  /**
   * The store callback: a store error gives null; a missing key throws at
   * reply.toString(); a blob the unpickler rejects (None) throws inside the
   * callback too.
   */
  function UserFromReply(reply: StoreReply, loads: string -> Option<Pickled>): (r: UserResult)
    ensures reply == StoreFailed ==> r == NoUser
    ensures reply == KeyMissing ==> r == Thrown
    ensures reply.Stored? && loads(reply.text).None? ==> r == Thrown
    ensures reply.Stored? && loads(reply.text).Some? ==> r == ExtractUser(loads(reply.text).value)
  {
    match reply
    case StoreFailed => NoUser
    case KeyMissing => Thrown
    case Stored(text) =>
      match loads(text)
      case None => Thrown
      case Some(sessionData) => ExtractUser(sessionData)
  }

  /**
   * getUser: verifies the cookie, reads the session under its store key, and
   * extracts the user id. `queried` is the key looked up, if any.
   */
  method GetUser(retrieval: Retrieval, hmac: Hmac, loads: string -> Option<Pickled>,
                 store: string -> StoreReply, cookie: string)
    returns (result: UserResult, ghost queried: Option<string>)
    ensures queried.Some? <==> SignatureChecks(retrieval.secret, hmac, cookie)
    ensures queried.None? ==> result == NoUser
    ensures queried.Some? ==> queried.value == StoreKey(cookie[SignatureLength..])
    ensures queried.Some? ==> result == UserFromReply(store(queried.value), loads)
    ensures !SignatureChecks(retrieval.secret, hmac, cookie) ==> result == NoUser
    ensures SignatureChecks(retrieval.secret, hmac, cookie) ==>
              result == UserFromReply(store(StoreKey(cookie[SignatureLength..])), loads)
  {
    var sessionId, hmacInput, comparisons := GetSessionId(retrieval.secret, hmac, cookie);
    if sessionId == None {
      return NoUser, None;
    }
    var key := StoreKey(sessionId.value);
    queried := Some(key);
    result := UserFromReply(store(key), loads);
  }

  /** A session whose ticket leads to user.id = [u] resolves to u, whatever else the ticket holds. */
  lemma WellFormedSessionResolves(u: string, entry: map<string, Pickled>, rest: seq<Pickled>,
                                  session: map<string, Pickled>)
    requires entry == map[UserIdKey := PList([PStr(u)])]
    requires session == map[TicketKey := PList([PDict(entry)] + rest)]
    ensures UserFromReply(Stored("blob"), _ => Some(PDict(session))) == Identity(PStr(u))
  {
  }
}
