/** `catalogue.py`: the namespaced tool listing, and the lookup that undoes it without a table. */
module Catalogue {
  import opened Wrappers
  import opened Text
  import opened Naming

  /** One tool as its backend lists it; `None` stands for a name that is missing or not a string. */
  datatype Tool = Tool(name: Option<string>, body: int)

  datatype Listing = Listing(backend: string, items: seq<Tool>)

  const PUBLIC_NAME_MAX := 64

  /** `is_publishable`: the pattern's `$` lets one newline through at the end. */
  predicate Publishable(public: string) {
    var t := BeforeDollar(public);
    0 < |t| <= PUBLIC_NAME_MAX && forall c | c in t :: NameChar(c)
  }

  predicate Named(t: Tool) { t.name.Some? && t.name.value != "" }

  predicate Offered(backend: string, t: Tool) { Named(t) && Publishable(Compose(backend, t.name.value)) }

  /** The public names of one backend's tools, in order. */
  function PublicNames(l: Listing): seq<string>
    decreases |l.items|
  {
    if l.items == [] then []
    else
      var rest := PublicNames(Listing(l.backend, l.items[1..]));
      if Offered(l.backend, l.items[0]) then [Compose(l.backend, l.items[0].name.value)] + rest else rest
  }

  /** The named tools of one backend that no client would accept once namespaced. */
  function SkippedNames(l: Listing): seq<string>
    decreases |l.items|
  {
    if l.items == [] then []
    else
      var t, rest := l.items[0], SkippedNames(Listing(l.backend, l.items[1..]));
      if Named(t) && !Offered(l.backend, t) then [t.name.value] + rest else rest
  }

  function AllPublic(ls: seq<Listing>): seq<string> {
    if ls == [] then [] else PublicNames(ls[0]) + AllPublic(ls[1..])
  }

  class ToolCatalogue {
    /** What each backend reports as skipped, written by `Tools`. */
    var skipped: map<string, seq<string>>

    constructor ()
      ensures skipped == map[]
    {
      skipped := map[];
    }

    /** The two loops of `tools`: every backend, and every tool it lists. */
    method Tools(listings: seq<Listing>) returns (published: seq<string>)
      requires forall i, j | 0 <= i < j < |listings| :: listings[i].backend != listings[j].backend
      modifies this
      ensures published == AllPublic(listings)
      ensures forall l | l in listings :: l.backend in skipped && skipped[l.backend] == SkippedNames(l)
      ensures forall b | b in old(skipped) && (forall l | l in listings :: l.backend != b) ::
                b in skipped && skipped[b] == old(skipped)[b]
    {
      published := [];
      for i := 0 to |listings|
        invariant published + AllPublic(listings[i..]) == AllPublic(listings)
        invariant forall k | 0 <= k < i ::
          listings[k].backend in skipped && skipped[listings[k].backend] == SkippedNames(listings[k])
        invariant forall b | b in old(skipped) && (forall k | 0 <= k < i :: listings[k].backend != b) ::
          b in skipped && skipped[b] == old(skipped)[b]
      {
        var l := listings[i];
        assert listings[i..][0] == l && listings[i..][1..] == listings[i + 1..];
        Assoc(published, PublicNames(l), AllPublic(listings[i + 1..]));
        var names, dropped := OneBackend(l);
        published := published + names;
        skipped := skipped[l.backend := dropped];
      }
      assert listings[|listings|..] == [];
      NilRight(published);
    }

    static method OneBackend(l: Listing) returns (names: seq<string>, dropped: seq<string>)
      ensures names == PublicNames(l) && dropped == SkippedNames(l)
    {
      names, dropped := [], [];
      assert Listing(l.backend, l.items[0..]) == l;
      for i := 0 to |l.items|
        invariant names + PublicNames(Listing(l.backend, l.items[i..])) == PublicNames(l)
        invariant dropped + SkippedNames(Listing(l.backend, l.items[i..])) == SkippedNames(l)
      {
        var t := l.items[i];
        assert l.items[i..][0] == t && l.items[i..][1..] == l.items[i + 1..];
        var rest := Listing(l.backend, l.items[i + 1..]);
        if !Named(t) {
          continue;
        }
        var public := Compose(l.backend, t.name.value);
        if !Publishable(public) {
          Assoc(dropped, [t.name.value], SkippedNames(rest));
          dropped := dropped + [t.name.value];
          continue;
        }
        Assoc(names, [public], PublicNames(rest));
        names := names + [public];
      }
      assert l.items[|l.items|..] == [];
      NilRight(names);
      NilRight(dropped);
    }
  }

  /** `find_tool`: split the name, then look up the backend and only the backend. */
  function FindTool(pool: set<string>, public: string): Option<(string, string)> {
    match SplitName(public)
    case Err(_) => None
    case Ok((server, tool)) => if server in pool then Some((server, tool)) else None
  }

  /** A public name of `l` is one of its tools' names, and every offered tool is published. */
  lemma {:induction false} PublishedFrom(l: Listing, public: string)
    ensures public in PublicNames(l) <==>
            exists t :: t in l.items && Offered(l.backend, t) && public == Compose(l.backend, t.name.value)
    decreases |l.items|
  {
    if l.items != [] {
      PublishedFrom(Listing(l.backend, l.items[1..]), public);
      assert forall t :: t in l.items <==> t == l.items[0] || t in l.items[1..];
    }
  }

  lemma {:induction false} SkippedFrom(l: Listing, name: string)
    ensures name in SkippedNames(l) <==>
            exists t :: t in l.items && Named(t) && !Offered(l.backend, t) && t.name.value == name
    decreases |l.items|
  {
    if l.items != [] {
      SkippedFrom(Listing(l.backend, l.items[1..]), name);
      assert forall t :: t in l.items <==> t == l.items[0] || t in l.items[1..];
    }
  }

  lemma {:induction false} CountsAddUp(l: Listing)
    ensures |PublicNames(l)| + |SkippedNames(l)| == NamedCount(l.items)
    decreases |l.items|
  {
    if l.items != [] {
      CountsAddUp(Listing(l.backend, l.items[1..]));
    }
  }

  lemma ComposeIsInjective(server: string, a: string, b: string)
    requires Compose(server, a) == Compose(server, b)
    ensures a == b
  {
    var head := server + SEPARATOR;
    assert a == Compose(server, a)[|head|..] && b == Compose(server, b)[|head|..];
  }

  /** Nothing named is lost: each tool is published under its name or reported as skipped, never
      both, and no name is told that is not a tool's. */
  lemma PublishedOrSkipped(l: Listing)
    ensures forall t | t in l.items && Named(t) ::
      && (Compose(l.backend, t.name.value) in PublicNames(l) <==> Offered(l.backend, t))
      && (t.name.value in SkippedNames(l) <==> !Offered(l.backend, t))
    ensures |PublicNames(l)| + |SkippedNames(l)| == NamedCount(l.items)
  {
    CountsAddUp(l);
    forall t | t in l.items && Named(t)
      ensures Compose(l.backend, t.name.value) in PublicNames(l) <==> Offered(l.backend, t)
      ensures t.name.value in SkippedNames(l) <==> !Offered(l.backend, t)
    {
      var public := Compose(l.backend, t.name.value);
      PublishedFrom(l, public);
      SkippedFrom(l, t.name.value);
      forall u | u in l.items && Offered(l.backend, u) && public == Compose(l.backend, u.name.value)
        ensures u.name == t.name
      {
        ComposeIsInjective(l.backend, u.name.value, t.name.value);
      }
    }
  }

  function NamedCount(items: seq<Tool>): nat {
    if items == [] then 0 else (if Named(items[0]) then 1 else 0) + NamedCount(items[1..])
  }

  lemma {:induction false} PublishedSomewhere(ls: seq<Listing>, public: string)
    requires public in AllPublic(ls)
    ensures exists l :: l in ls && public in PublicNames(l)
  {
    if public in PublicNames(ls[0]) {
      assert ls[0] in ls;
    } else {
      PublishedSomewhere(ls[1..], public);
    }
  }

  /** Each published name resolves to its own backend and spelling exactly when that backend's name is routable. */
  lemma PublishedResolves(pool: set<string>, l: Listing, t: Tool)
    requires l.backend in pool && l.backend != "" && t in l.items && Offered(l.backend, t)
    ensures Compose(l.backend, t.name.value) in PublicNames(l)
    ensures FindTool(pool, Compose(l.backend, t.name.value)) == Some((l.backend, t.name.value)) <==> Routable(l.backend)
  {
    PublishedFrom(l, Compose(l.backend, t.name.value));
    SplitCompose(l.backend, t.name.value);
  }

  /** No two routable backends publish the same name, whatever their tools are called. */
  lemma NoSharedNames(a: Listing, b: Listing, public: string)
    requires Routable(a.backend) && Routable(b.backend) && a.backend != "" && b.backend != ""
    requires public in PublicNames(a) && public in PublicNames(b)
    ensures a.backend == b.backend
  {
    PublishedFrom(a, public);
    PublishedFrom(b, public);
    var t :| t in a.items && Offered(a.backend, t) && public == Compose(a.backend, t.name.value);
    var u :| u in b.items && Offered(b.backend, u) && public == Compose(b.backend, u.name.value);
    SplitCompose(a.backend, t.name.value);
    SplitCompose(b.backend, u.name.value);
  }

  /** A whole listing: every name a client is shown leads back to a backend that offered it. */
  lemma EveryListedNameRoutes(pool: set<string>, ls: seq<Listing>, public: string)
    requires forall l | l in ls :: l.backend in pool && l.backend != "" && Routable(l.backend)
    requires public in AllPublic(ls)
    ensures FindTool(pool, public).Some?
    ensures var (server, tool) := FindTool(pool, public).value;
      exists l, t :: l in ls && t in l.items && l.backend == server && t.name == Some(tool)
  {
    PublishedSomewhere(ls, public);
    var l :| l in ls && public in PublicNames(l);
    PublishedFrom(l, public);
    var t :| t in l.items && Offered(l.backend, t) && public == Compose(l.backend, t.name.value);
    PublishedResolves(pool, l, t);
  }

  /** Two valid servers whose listings collide, because one name ends in an underscore. */
  lemma UnroutableServersCollide()
    ensures var a, b := Listing("a_", [Tool(Some("b"), 1)]), Listing("a", [Tool(Some("_b"), 2)]);
      ValidServer(a.backend) && ValidServer(b.backend) && PublicNames(a) == PublicNames(b) == ["a___b"]
  {
    TrailingUnderscoreMisroutes();
    var a, b := Listing("a_", [Tool(Some("b"), 1)]), Listing("a", [Tool(Some("_b"), 2)]);
    assert Compose("a_", "b") == "a___b";
    assert BeforeDollar("a___b") == "a___b";
    assert PublicNames(a) == ["a___b"] + PublicNames(Listing("a_", a.items[1..]));
    assert PublicNames(b) == ["a___b"] + PublicNames(Listing("a", b.items[1..]));
  }

  /** A tool of a routable backend is found under its public name exactly while the backend is in the pool. */
  lemma FoundInPool(pool: set<string>, server: string, tool: string)
    requires Routable(server) && server != "" && tool != ""
    ensures FindTool(pool, Compose(server, tool)) == if server in pool then Some((server, tool)) else None
  {
    SplitCompose(server, tool);
  }

  predicate PublicChar(c: char) {
    'a' <= c <= 'z' || 'A' <= c <= 'Z' || '0' <= c <= '9' || c == '_' || c == '-'
  }

  predicate PublicWord(word: string) { 1 <= |word| <= 64 && forall c | c in word :: PublicChar(c) }

  lemma WordPublishes(word: string)
    requires PublicWord(word)
    ensures Publishable(word) && Publishable(word + "\n")
  {
    assert word[|word| - 1] in word;
    var t := word + "\n";
    assert t[|t| - 1] == '\n' && t[..|t| - 1] == word;
  }

  lemma PublishableIsWord(public: string)
    requires Publishable(public)
    ensures PublicWord(BeforeDollar(public))
    ensures public == BeforeDollar(public) || public == BeforeDollar(public) + "\n"
  {
  }

  /** A public name is acceptable exactly if it is one to sixty-four letters, digits, underscores and hyphens;
      a newline may follow. */
  lemma PublishableExactly(public: string)
    ensures Publishable(public) <==> PublicWord(public) || exists word :: PublicWord(word) && public == word + "\n"
  {
    if Publishable(public) {
      PublishableIsWord(public);
    }
    if PublicWord(public) {
      WordPublishes(public);
    }
    if word :| PublicWord(word) && public == word + "\n" {
      WordPublishes(word);
    }
  }
}
