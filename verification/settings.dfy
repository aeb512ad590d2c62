/** The settings context (`SettingsProvider`): the API token, the default
    repository kept in browser storage, and the rate-limit reading. */
module Settings {
  import opened Wrappers
  import Http
  import Identifier

  /** `data.rate` of the rate-limit endpoint. */
  datatype RateLimit = RateLimit(limit: int, remaining: int, reset: int)

  /** The context's value, without the `saveDefaultRepo` callback. */
  datatype Settings = Settings(token: string, defaultRepo: string, rateLimit: Option<RateLimit>)

  /** Browser storage, as a map from key to stored text. */
  type Storage = map<string, string>

  const RepoKey: string := "gh_default_repo"
  const InitialRepo: string := "facebook/react"

  /** The state before the start-up effect runs. `env` is the
      `NEXT_PUBLIC_GITHUB_TOKEN` build variable, `None` when unset. */
  function Initial(env: Option<string>): (s: Settings)
    ensures s.defaultRepo == InitialRepo && s.rateLimit.None?
    ensures env.Some? ==> s.token == env.value
    ensures env.None? ==> s.token == ""
  {
    Settings(env.GetOr(""), InitialRepo, None)
  }

  /** `checkLimits`: the decoded body is `Some(rate)` when it has a `rate`
      field and `None` when it has not. The status is never looked at, and a
      failed request or an undecodable body is caught and changes nothing. */
  function CheckLimits(s: Settings, reply: Http.Outcome<Option<RateLimit>>): (next: Settings)
    ensures next.token == s.token && next.defaultRepo == s.defaultRepo
    ensures next.rateLimit != s.rateLimit ==> reply.Response? && reply.body.Parsed? && reply.body.value == next.rateLimit
    ensures reply.Response? && reply.body.Parsed? && reply.body.value.Some? ==> next.rateLimit == reply.body.value
    ensures !(reply.Response? && reply.body.Parsed? && reply.body.value.Some?) ==> next.rateLimit == s.rateLimit
  {
    match reply
    case NetworkError(_) => s
    case Response(_, body) =>
      match body
      case Malformed(_) => s
      case Parsed(None) => s
      case Parsed(Some(rate)) => s.(rateLimit := Some(rate))
  }

  /** The repository stored under the key, when there is a non-empty one. */
  function Saved(storage: Storage): (r: Option<string>)
    ensures r.Some? <==> RepoKey in storage && storage[RepoKey] != ""
    ensures r.Some? ==> r.value == storage[RepoKey]
  {
    if RepoKey in storage && storage[RepoKey] != "" then Some(storage[RepoKey]) else None
  }

  /** The start-up effect: a non-empty saved repository replaces the default,
      then the limits are checked when there is a token. `reply` is the
      rate-limit request's outcome, looked at only when one is made. */
  function Load(s: Settings, storage: Storage, reply: Http.Outcome<Option<RateLimit>>): (next: Settings)
    ensures next.token == s.token
    ensures next.defaultRepo == Saved(storage).GetOr(s.defaultRepo)
    ensures s.token == "" ==> next.rateLimit == s.rateLimit
  {
    var withRepo := match Saved(storage) case Some(repo) => s.(defaultRepo := repo) case None => s;
    if s.token != "" then CheckLimits(withRepo, reply) else withRepo
  }

  /** `saveDefaultRepo(repo)`: only a repository containing a slash is kept,
      both in the state and in storage. */
  function SaveDefaultRepo(s: Settings, storage: Storage, repo: string): (r: (Settings, Storage))
    ensures r.0.token == s.token && r.0.rateLimit == s.rateLimit
    ensures Identifier.HasSlash(repo) ==> r.0.defaultRepo == repo && RepoKey in r.1 && r.1[RepoKey] == repo
    ensures !Identifier.HasSlash(repo) ==> r == (s, storage)
    ensures forall k :: k in storage && k != RepoKey ==> k in r.1 && r.1[k] == storage[k]
    ensures forall k :: k in r.1 && k != RepoKey ==> k in storage
  {
    if Identifier.HasSlash(repo) then (s.(defaultRepo := repo), storage[RepoKey := repo])
    else (s, storage)
  }

  /** Round trip: a repository saved in one session is the default after the
      next start-up, whatever the rate-limit request does. */
  lemma {:induction false} SaveThenLoad(s: Settings, storage: Storage, repo: string, env: Option<string>, reply: Http.Outcome<Option<RateLimit>>)
    requires Identifier.HasSlash(repo)
    ensures Load(Initial(env), SaveDefaultRepo(s, storage, repo).1, reply).defaultRepo == repo
  {
    var stored := SaveDefaultRepo(s, storage, repo).1;
    assert Saved(stored) == Some(repo);
  }

  /** Saving is idempotent. */
  lemma {:induction false} SaveTwice(s: Settings, storage: Storage, repo: string)
    ensures var once := SaveDefaultRepo(s, storage, repo); SaveDefaultRepo(once.0, once.1, repo) == once
  {
    if Identifier.HasSlash(repo) {
      assert storage[RepoKey := repo][RepoKey := repo] == storage[RepoKey := repo];
    }
  }

  /** Loading is not guarded like saving: a stored value without a slash
      becomes the default all the same. */
  lemma {:induction false} LoadSkipsSlashCheck(env: Option<string>, reply: Http.Outcome<Option<RateLimit>>)
    ensures !Identifier.HasSlash("react")
    ensures Load(Initial(env), map[RepoKey := "react"], reply).defaultRepo == "react"
  {
    assert Saved(map[RepoKey := "react"]) == Some("react");
  }

  /** The status of the rate-limit reply is ignored: a refused request whose
      body still carries a `rate` sets the reading. */
  lemma {:induction false} StatusIgnored(s: Settings, rate: RateLimit)
    ensures !Http.IsOk(403)
    ensures CheckLimits(s, Http.Response(403, Http.Parsed(Some(rate)))).rateLimit == Some(rate)
  {
  }

  /** Without a token no rate-limit request is made, so the reading stays empty. */
  lemma {:induction false} NoTokenNoReading(storage: Storage, reply: Http.Outcome<Option<RateLimit>>)
    ensures Load(Initial(None), storage, reply).rateLimit.None?
  {
  }
}
