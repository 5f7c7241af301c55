/** What a backend is launched with, and which launches are the same (`supervisor.py`, `backend.py`). */
module Launches {
  import Interpolation

  type Store = Interpolation.Store

  /** A catalogue entry: its values are still templates.  `rest` stands for the members that do
      not decide what the process is: whether it is required or lazy, its time to live, its text. */
  datatype Spec = Spec(url: string, command: string, args: seq<string>, env: map<string, string>,
                       passthrough: set<string>, inherit: bool, cwd: string, headers: map<string, string>,
                       timeout: int, startupTimeout: int, enabled: bool, rest: nat)

  /** The variables every child gets. */
  const BASE_ALLOWLIST: set<string> := {
    "PATH", "HOME", "USER", "LOGNAME", "SHELL", "TMPDIR", "TMP", "TEMP",
    "LANG", "LC_ALL", "LC_CTYPE", "TZ", "TERM",
    "SYSTEMROOT", "COMSPEC", "PATHEXT", "USERPROFILE", "APPDATA", "LOCALAPPDATA",
    "NUMBER_OF_PROCESSORS",
    "SSL_CERT_FILE", "SSL_CERT_DIR", "REQUESTS_CA_BUNDLE", "NODE_EXTRA_CA_CERTS",
    "HTTP_PROXY", "HTTPS_PROXY", "NO_PROXY", "http_proxy", "https_proxy", "no_proxy"
  }

  /** `interpolate` with absent references read as empty. */
  function Resolver(store: Store): string -> string {
    (template: string) => Interpolation.Render(Interpolation.Tokens(template), store)
  }

  function ResolveAll(templates: map<string, string>, resolve: string -> string): map<string, string> {
    map key | key in templates :: resolve(templates[key])
  }

  /** What a child gets besides its own variables. */
  function BaseEnvironment(spec: Spec, environ: map<string, string>): map<string, string> {
    map key | key in environ && (spec.inherit || key in BASE_ALLOWLIST || key in spec.passthrough) :: environ[key]
  }

  /** `resolve_env`: the base, what passes through, then the entry's own, resolved. */
  function Environment(spec: Spec, resolve: string -> string, environ: map<string, string>): map<string, string> {
    BaseEnvironment(spec, environ) + ResolveAll(spec.env, resolve)
  }

  /** What `spawn_identity` digests; the digest is taken to tell different launches apart. */
  datatype Identity = Identity(url: string, headers: map<string, string>, command: string, args: seq<string>,
                               cwd: string, inherit: bool, timeout: int, startupTimeout: int, enabled: bool,
                               env: map<string, string>)

  function SpawnIdentity(spec: Spec, resolve: string -> string, environ: map<string, string>): Identity {
    Identity(spec.url, ResolveAll(spec.headers, resolve), spec.command, spec.args, spec.cwd, spec.inherit,
             spec.timeout, spec.startupTimeout, spec.enabled, Environment(spec, resolve, environ))
  }

  predicate SameValues(templates: map<string, string>, r1: string -> string, r2: string -> string) {
    forall key | key in templates :: r1(templates[key]) == r2(templates[key])
  }

  lemma ResolvedTheSame(templates: map<string, string>, r1: string -> string, r2: string -> string)
    ensures ResolveAll(templates, r1) == ResolveAll(templates, r2) <==> SameValues(templates, r1, r2)
  {
    var m1, m2 := ResolveAll(templates, r1), ResolveAll(templates, r2);
    if m1 == m2 {
      forall key | key in templates ensures r1(templates[key]) == r2(templates[key]) {
        assert m1[key] == m2[key];
      }
    }
  }

  lemma OverlayTells(base: map<string, string>, m1: map<string, string>, m2: map<string, string>)
    requires m1.Keys == m2.Keys
    ensures base + m1 == base + m2 <==> m1 == m2
  {
    if base + m1 == base + m2 {
      forall key | key in m1 ensures m1[key] == m2[key] {
        assert (base + m1)[key] == m1[key] && (base + m2)[key] == m2[key];
      }
    }
  }

  /** A rotated credential is noticed exactly when it changes a resolved header or variable. */
  lemma RotationIsNoticed(spec: Spec, r1: string -> string, r2: string -> string, environ: map<string, string>)
    ensures SpawnIdentity(spec, r1, environ) == SpawnIdentity(spec, r2, environ) <==>
      SameValues(spec.env, r1, r2) && SameValues(spec.headers, r1, r2)
  {
    ResolvedTheSame(spec.env, r1, r2);
    ResolvedTheSame(spec.headers, r1, r2);
    OverlayTells(BaseEnvironment(spec, environ), ResolveAll(spec.env, r1), ResolveAll(spec.env, r2));
  }

  /** The working directory is compared as a template: an entry whose other values resolve to
      the same is taken for unchanged, wherever the directory now is. */
  lemma DirectoryRotationIsMissed(environ: map<string, string>) returns (spec: Spec, s1: Store, s2: Store)
    ensures Resolver(s1)(spec.cwd) != Resolver(s2)(spec.cwd)
    ensures SpawnIdentity(spec, Resolver(s1), environ) == SpawnIdentity(spec, Resolver(s2), environ)
  {
    var cwd;
    cwd, s1, s2 := DirectoryRotates();
    spec := Spec("", "run", [], map[], {}, false, cwd, map[], 1, 1, true, 0);
    NothingElseResolved(spec, Resolver(s1), Resolver(s2), environ);
  }

  lemma DirectoryRotates() returns (cwd: string, s1: Store, s2: Store)
    ensures Resolver(s1)(cwd) != Resolver(s2)(cwd)
  {
    cwd := ['$'] + Interpolation.Braces("D", "");
    s1, s2 := map["D" := "a"], map["D" := "b"];
    Interpolation.ReferenceIsValue("D", s1);
    Interpolation.ReferenceIsValue("D", s2);
  }

  lemma NothingElseResolved(spec: Spec, r1: string -> string, r2: string -> string, environ: map<string, string>)
    requires spec.env == map[] && spec.headers == map[]
    ensures SpawnIdentity(spec, r1, environ) == SpawnIdentity(spec, r2, environ)
  {
    RotationIsNoticed(spec, r1, r2, environ);
  }

  /** A variable of a child: its own entry, resolved, or else the daemon's, if it is let through. */
  lemma EnvironmentTells(spec: Spec, resolve: string -> string, environ: map<string, string>, key: string)
    ensures var env := Environment(spec, resolve, environ);
      && (key in env <==> key in spec.env
                          || (key in environ && (spec.inherit || key in BASE_ALLOWLIST || key in spec.passthrough)))
      && (key in env ==> env[key] == if key in spec.env then resolve(spec.env[key]) else environ[key])
  {
  }

  lemma SameResolved(m1: map<string, string>, r1: string -> string, m2: map<string, string>, r2: string -> string)
    ensures ResolveAll(m1, r1) == ResolveAll(m2, r2) <==>
      m1.Keys == m2.Keys && forall key | key in m1 && key in m2 :: r1(m1[key]) == r2(m2[key])
  {
    var h1, h2 := ResolveAll(m1, r1), ResolveAll(m2, r2);
    assert h1.Keys == m1.Keys && h2.Keys == m2.Keys;
    if h1 == h2 {
      forall key | key in m1 && key in m2 ensures r1(m1[key]) == r2(m2[key]) {
        assert h1[key] == h2[key];
      }
    }
  }

  /** Two entries launch the same exactly if everything that makes a process agrees: what is run and how,
      whether and how long it may take, and every header and variable, resolved. */
  lemma SameLaunchExactly(a: Spec, r1: string -> string, b: Spec, r2: string -> string, environ: map<string, string>)
    ensures SpawnIdentity(a, r1, environ) == SpawnIdentity(b, r2, environ) <==>
      && a.url == b.url && a.command == b.command && a.args == b.args && a.cwd == b.cwd
      && a.inherit == b.inherit && a.enabled == b.enabled
      && a.timeout == b.timeout && a.startupTimeout == b.startupTimeout
      && a.headers.Keys == b.headers.Keys
      && (forall key | key in a.headers && key in b.headers :: r1(a.headers[key]) == r2(b.headers[key]))
      && Environment(a, r1, environ) == Environment(b, r2, environ)
  {
    SameResolved(a.headers, r1, b.headers, r2);
  }
}
