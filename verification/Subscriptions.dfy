/** Who is listening to which resource (`notifications.py`): two indexes over one set of pairs. */
module SubscriptionIndex {
  import opened Wrappers
  import opened Text
  import opened Naming

  type Session = nat

  type Pair = (Session, string)

  predicate Under(name: string, uri: string) {
    AddressPrefix(name) <= uri
  }

  function AddressPrefix(name: string): string {
    RESOURCE_SCHEME + "://" + (name + "/")
  }

  class Subscriptions {
    var byUri: map<string, set<Session>>
    var bySession: map<Session, set<string>>

    /** The set of pairs the two indexes stand for. */
    ghost function Pairs(): set<Pair>
      reads this
    {
      set session, uri | session in bySession && uri in bySession[session] :: (session, uri)
    }

    lemma PairsAreListed()
      ensures forall p: Pair :: p in Pairs() <==> Listed(bySession, p.0, p.1)
    {
    }

    /** The indexes are each other's inverse and hold no empty bucket. */
    ghost predicate Valid()
      reads this
    {
      && (forall session, uri :: Listed(bySession, session, uri) <==> Listed(byUri, uri, session))
      && (forall session | session in bySession :: bySession[session] != {})
      && (forall uri | uri in byUri :: byUri[uri] != {})
    }

    constructor ()
      ensures Valid() && Pairs() == {}
    {
      byUri, bySession := map[], map[];
    }

    method Add(session: Session, uri: string) returns (added: bool)
      requires Valid()
      modifies this
      ensures Valid() && Pairs() == old(Pairs()) + {(session, uri)}
      ensures added <==> (session, uri) !in old(Pairs())
    {
      PairsAreListed();
      if session in bySession && uri in bySession[session] {
        return false;
      }
      WithOne(bySession, session, uri);
      WithOne(byUri, uri, session);
      bySession := With(bySession, session, uri);
      byUri := With(byUri, uri, session);
      PairsAreListed();
      added := true;
    }

    /** `_discard_uri`: the other half of a removal the session index has already made. */
    method DiscardUri(session: Session, uri: string)
      requires uri in byUri && session in byUri[uri]
      modifies `byUri
      ensures byUri == Without(old(byUri), uri, session)
    {
      var left := byUri[uri] - {session};
      if left == {} {
        byUri := byUri - {uri};
      } else {
        byUri := byUri[uri := left];
      }
    }

    method Remove(session: Session, uri: string) returns (removed: bool)
      requires Valid()
      modifies this
      ensures Valid() && Pairs() == old(Pairs()) - {(session, uri)}
      ensures removed <==> (session, uri) in old(Pairs())
    {
      PairsAreListed();
      if session !in bySession || uri !in bySession[session] {
        return false;
      }
      assert Listed(bySession, session, uri);
      WithoutOne(bySession, session, uri);
      WithoutOne(byUri, uri, session);
      bySession := Without(bySession, session, uri);
      DiscardUri(session, uri);
      PairsAreListed();
      removed := true;
    }

    /** Everything one session listens to: a connection closed. */
    method DropSession(session: Session)
      requires Valid()
      modifies this
      ensures Valid() && Pairs() == set p | p in old(Pairs()) && p.0 != session
    {
      PairsAreListed();
      if session !in bySession {
        return;
      }
      var left := bySession[session];
      ghost var was, before := bySession, byUri;
      bySession := bySession - {session};
      assert forall s, uri :: Listed(bySession, s, uri) <==> Listed(was, s, uri) && s != session;
      while left != {}
        invariant left <= old(bySession[session])
        invariant bySession == was - {session}
        invariant forall s, uri :: Listed(byUri, uri, s) <==> Listed(before, uri, s) && (s != session || uri in left)
        invariant forall uri | uri in byUri :: byUri[uri] != {}
        decreases |left|
      {
        var uri :| uri in left;
        assert Listed(byUri, uri, session);
        WithoutOne(byUri, uri, session);
        DiscardUri(session, uri);
        left := left - {uri};
      }
      PairsAreListed();
    }

    /** One URI for everyone: it could not be subscribed to again. */
    method DropUri(uri: string)
      requires Valid()
      modifies this
      ensures Valid() && Pairs() == set p | p in old(Pairs()) && p.1 != uri
    {
      PairsAreListed();
      if uri !in byUri {
        return;
      }
      var left := byUri[uri];
      ghost var was, before := byUri, bySession;
      byUri := byUri - {uri};
      assert forall u, s :: Listed(byUri, u, s) <==> Listed(was, u, s) && u != uri;
      while left != {}
        invariant left <= old(byUri[uri])
        invariant byUri == was - {uri}
        invariant forall s, u :: Listed(bySession, s, u) <==> Listed(before, s, u) && (u != uri || s in left)
        invariant forall s | s in bySession :: bySession[s] != {}
        decreases |left|
      {
        var session :| session in left;
        assert Listed(bySession, session, uri);
        WithoutOne(bySession, session, uri);
        bySession := Without(bySession, session, uri);
        left := left - {session};
      }
      PairsAreListed();
    }

    /** Every URI under one backend's address. */
    method UrisFor(name: string) returns (uris: set<string>)
      requires Valid()
      ensures uris == set uri | uri in byUri && Under(name, uri)
    {
      uris := set uri | uri in byUri && Under(name, uri);
    }

    /** Everything under one backend's address: a reload removed it. */
    method DropBackend(name: string)
      requires Valid()
      modifies this
      ensures Valid() && Pairs() == set p | p in old(Pairs()) && !Under(name, p.1)
    {
      var left := UrisFor(name);
      PairsAreListed();
      assert forall p | p in Pairs() :: Listed(byUri, p.1, p.0);
      while left != {}
        invariant Valid()
        invariant forall uri | uri in left :: Under(name, uri)
        invariant forall p :: p in Pairs() <==> p in old(Pairs()) && (Under(name, p.1) ==> p.1 in left)
        decreases |left|
      {
        var uri :| uri in left;
        DropUri(uri);
        left := left - {uri};
      }
    }

    /** `sessions_for`, `uris_of` and `watched_uris` read the pairs. */
    method SessionsFor(uri: string) returns (sessions: set<Session>)
      requires Valid()
      ensures forall session :: session in sessions <==> (session, uri) in Pairs()
    {
      sessions := if uri in byUri then byUri[uri] else {};
      PairsAreListed();
      assert forall session :: session in sessions <==> Listed(byUri, uri, session);
    }

    method UrisOf(session: Session) returns (uris: set<string>)
      requires Valid()
      ensures forall uri :: uri in uris <==> (session, uri) in Pairs()
    {
      uris := if session in bySession then bySession[session] else {};
      PairsAreListed();
    }

    method WatchedUris() returns (uris: set<string>)
      requires Valid()
      ensures forall uri :: uri in uris <==> exists session :: (session, uri) in Pairs()
    {
      uris := byUri.Keys;
      PairsAreListed();
      forall uri ensures uri in uris <==> exists session :: (session, uri) in Pairs() {
        if uri in byUri {
          var session :| session in byUri[uri];
          assert Listed(byUri, uri, session);
          assert (session, uri) in Pairs();
        }
        if session :| (session, uri) in Pairs() {
          assert Listed(bySession, session, uri);
          assert Listed(byUri, uri, session);
        }
      }
    }
  }

  predicate Listed<K, V>(index: map<K, set<V>>, key: K, value: V) {
    key in index && value in index[key]
  }

  /** The index without one value, and without its bucket if that was the last. */
  function Without<K, V(==)>(index: map<K, set<V>>, key: K, value: V): map<K, set<V>>
    requires key in index
  {
    if index[key] - {value} == {} then index - {key} else index[key := index[key] - {value}]
  }

  /** The index with one value more. */
  function With<K, V(==)>(index: map<K, set<V>>, key: K, value: V): map<K, set<V>> {
    index[key := (if key in index then index[key] else {}) + {value}]
  }

  lemma WithOne<K, V>(index: map<K, set<V>>, key: K, value: V)
    ensures forall k, v :: Listed(With(index, key, value), k, v) <==> Listed(index, k, v) || (k == key && v == value)
    ensures (forall k | k in index :: index[k] != {}) ==>
      forall k | k in With(index, key, value) :: With(index, key, value)[k] != {}
  {
  }

  lemma WithoutOne<K, V>(index: map<K, set<V>>, key: K, value: V)
    requires Listed(index, key, value)
    ensures forall k, v ::
      Listed(Without(index, key, value), k, v) <==> Listed(index, k, v) && !(k == key && v == value)
    ensures (forall k | k in index :: index[k] != {}) ==>
      forall k | k in Without(index, key, value) :: Without(index, key, value)[k] != {}
  {
  }

  // ---------------------------------------------------------------- which backend a URI is under

  const ADDRESS: string := "mcpgw://"

  lemma AddressSplits(rest: string)
    ensures SchemeOf(ADDRESS + rest) == RESOURCE_SCHEME && (ADDRESS + rest)[8..] == rest
  {
    OurScheme(rest);
    assert ADDRESS == RESOURCE_SCHEME + "://";
  }

  /** The backend a URI decodes to. */
  function OwnerOf(uri: string): Option<string> {
    match DecodeResourceUri(uri)
    case Ok(parts) => Some(parts.0)
    case Err(_) => None
  }

  /** The text before the first `/`, if there is some. */
  function Head(rest: string): Option<string> {
    var k := Run(NotSlash, rest);
    if 0 < k < |rest| then Some(rest[..k]) else None
  }

  lemma AddressDecodes(rest: string)
    ensures OwnerOf(ADDRESS + rest) == Head(rest)
  {
    AddressSplits(rest);
  }

  lemma PrefixSplits(name: string, uri: string)
    ensures Under(name, uri) <==> ADDRESS <= uri && name + "/" <= uri[8..]
  {
  }

  lemma NameHeads(name: string, tail: string)
    requires name != "" && '/' !in name
    ensures var rest := name + ("/" + tail);
      Run(NotSlash, rest) == |name| < |rest| && rest[..|name|] == name
  {
    ConsParts('/', tail);
    RunStops(NotSlash, name, "/" + tail);
  }

  lemma HeadNames(name: string, rest: string)
    requires name != "" && '/' !in name
    ensures name + "/" <= rest <==> Head(rest) == Some(name)
  {
    if name + "/" <= rest {
      var tail := rest[|name| + 1..];
      assert rest == (name + "/") + tail;
      Assoc(name, "/", tail);
      NameHeads(name, tail);
    }
  }

  /** A URI that decodes to a backend is under that backend's prefix exactly when its first eight
      characters are the scheme as the gateway writes it. */
  lemma UnderExactly(name: string, uri: string)
    requires name != "" && '/' !in name
    ensures Under(name, uri) <==> ADDRESS <= uri && OwnerOf(uri) == Some(name)
  {
    PrefixSplits(name, uri);
    if ADDRESS <= uri {
      assert uri == ADDRESS + uri[8..];
      AddressDecodes(uri[8..]);
      HeadNames(name, uri[8..]);
    }
  }

  /** Every address the gateway makes is under its own backend and under no other. */
  lemma AddressesAreUnder(name: string, server: string, uri: string)
    requires ValidServer(name) && ValidServer(server)
    ensures Under(name, EncodeResourceUri(server, uri)) <==> name == server
  {
    ValidServerShape(name);
    ValidServerShape(server);
    var address := EncodeResourceUri(server, uri);
    assert address == ADDRESS + (server + ("/" + EncodedPath(uri)));
    UnderExactly(name, address);
    AddressRoundTrip(server, uri);
  }

  lemma CapitalScheme(tail: string)
    requires tail != "" && tail[0] == ':'
    ensures SchemeOf("MCPGW" + tail) == RESOURCE_SCHEME
  {
    var url := "MCPGW" + tail;
    assert Run(AtMostSpace, url) == 0 && url[0..] == url;
    KeepsPrefix("MCPGW", tail);
    var u := WithoutBreaks(url);
    assert WithoutBreaks(tail)[0] == ':';
    RunStops(NotColon, "MCPGW", WithoutBreaks(tail));
    assert u[..5] == "MCPGW";
    RunStops(SchemeChar, "MCPGW", "");
    assert "MCPGW" + "" == "MCPGW";
    LowerCapitals();
  }

  lemma LowerCapitals()
    ensures Lower("MCPGW") == "mcpgw"
  {
    assert Lower("W") == "w";
    assert Lower("GW") == "gw";
    assert Lower("PGW") == "pgw";
    assert Lower("CPGW") == "cpgw";
  }

  /** A client may spell the scheme in capitals: that URI decodes to the backend, and dropping
      the backend leaves it. */
  lemma CapitalsAreMissed()
    ensures OwnerOf("MCPGW://a/b") == Some("a")
    ensures !Under("a", "MCPGW://a/b")
  {
    CapitalScheme("://a/b");
    assert "MCPGW" + "://a/b" == "MCPGW://a/b";
    var rest := "MCPGW://a/b"[8..];
    assert rest == "a" + "/b";
    RunStops(NotSlash, "a", "/b");
    assert rest[..1] == "a";
    PrefixSplits("a", "MCPGW://a/b");
  }
}
