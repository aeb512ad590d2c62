/** The contributor graph hook (`useNetwork`): a star with the repository at
    the centre and one spoke per contributor. */
module Network {
  import opened Wrappers
  import Http
  import Identifier

  /** A contributor as the contributors endpoint lists it. */
  datatype Contributor = Contributor(login: string, contributions: nat, avatarUrl: string)

  /** A node's `val`: either a fixed number, or `Math.sqrt(contributions) * 2`,
      kept symbolic because square roots are not modelled. */
  datatype Size = Fixed(v: nat) | TwiceRootOf(contributions: nat)

  /** `v` is a value the size can take: the fixed number itself, or the
      non-negative number whose square is four times the contributions. */
  ghost predicate Denotes(size: Size, v: real) {
    match size
    case Fixed(n) => v == n as real
    case TwiceRootOf(c) => v >= 0.0 && v * v == 4.0 * (c as real)
  }

  /** A graph node; `color` is set on the centre only, `img` on contributors only. */
  datatype Node = Node(id: string, size: Size, isCenter: bool, color: Option<string>, img: Option<string>)

  datatype Link = Link(source: string, target: string)

  datatype Graph = Graph(nodes: seq<Node>, links: seq<Link>)

  const CenterId: string := "Repository"

  /** `{ id: "Repository", val: 50, color: "#fff", isCenter: true }`. */
  const Center: Node := Node(CenterId, Fixed(50), true, Some("#fff"), None)

  const Empty: Graph := Graph([], [])

  /** The node pushed for one contributor. */
  function NodeOf(u: Contributor): (n: Node)
    ensures n.id == u.login && !n.isCenter
  {
    Node(u.login, TwiceRootOf(u.contributions), false, None, Some(u.avatarUrl))
  }

  /** The link pushed for one contributor. */
  function SpokeTo(u: Contributor): (l: Link)
    ensures l.source == CenterId && l.target == u.login
  {
    Link(CenterId, u.login)
  }

  /** `g` is the star of `users`: the centre first, then contributor `i` at
      node `i + 1`, with link `i` from the centre to it. */
  ghost predicate IsStarOf(g: Graph, users: seq<Contributor>) {
    |g.nodes| == |users| + 1 && |g.links| == |users| &&
    g.nodes[0] == Center &&
    (forall i :: 0 <= i < |users| ==> g.nodes[i + 1] == NodeOf(users[i])) &&
    (forall i :: 0 <= i < |users| ==> g.links[i] == SpokeTo(users[i]))
  }

  /** The `users.forEach` loop building the nodes and links. */
  method BuildGraph(users: seq<Contributor>) returns (g: Graph)
    ensures IsStarOf(g, users)
  {
    var nodes := [Center];
    var links: seq<Link> := [];
    for i := 0 to |users|
      invariant |nodes| == i + 1 && |links| == i
      invariant nodes[0] == Center
      invariant forall j :: 0 <= j < i ==> nodes[j + 1] == NodeOf(users[j])
      invariant forall j :: 0 <= j < i ==> links[j] == SpokeTo(users[j])
    {
      nodes := nodes + [NodeOf(users[i])];
      links := links + [SpokeTo(users[i])];
    }
    g := Graph(nodes, links);
  }

  /** A star has exactly one centre node, at the front: every contributor
      node has `isCenter` false. */
  lemma {:induction false} OneCenter(g: Graph, users: seq<Contributor>, k: int)
    requires IsStarOf(g, users)
    requires 0 <= k < |g.nodes|
    ensures g.nodes[k].isCenter <==> k == 0
  {
    if k > 0 {
      assert g.nodes[k] == NodeOf(users[k - 1]);
    }
  }

  /** Every link starts at the centre and ends at a contributor node, so no
      link joins two contributors. */
  lemma {:induction false} SpokesOnly(g: Graph, users: seq<Contributor>, l: Link)
    requires IsStarOf(g, users)
    requires l in g.links
    ensures l.source == CenterId == g.nodes[0].id
    ensures exists k :: 1 <= k < |g.nodes| && g.nodes[k].id == l.target && !g.nodes[k].isCenter
  {
    var i :| 0 <= i < |g.links| && g.links[i] == l;
    assert g.nodes[i + 1] == NodeOf(users[i]);
  }

  /** Every contributor is reached by a link. */
  lemma {:induction false} EveryContributorLinked(g: Graph, users: seq<Contributor>, i: int)
    requires IsStarOf(g, users)
    requires 0 <= i < |users|
    ensures Link(CenterId, users[i].login) in g.links
  {
    assert g.links[i] == Link(CenterId, users[i].login);
  }

  /** Node sizes grow with contributions: `2 * sqrt(c)` is non-decreasing. */
  lemma {:induction false} SizeMonotone(c1: nat, c2: nat, v1: real, v2: real)
    requires c1 <= c2
    requires Denotes(TwiceRootOf(c1), v1) && Denotes(TwiceRootOf(c2), v2)
    ensures v1 <= v2
  {
    if v1 > v2 {
      SquareGrows(v2, v1);
    }
  }

  lemma {:induction false} SquareGrows(a: real, b: real)
    requires 0.0 <= a < b
    ensures a * a < b * b
  {
    var d := b - a;
    assert d > 0.0;
    assert b * b == (a + d) * (a + d) == a * a + 2.0 * a * d + d * d;
    assert a * d >= 0.0;
    assert d * d > 0.0;
  }

  /** The hook's state: `data` (the graph), `isLoading`, `error`. */
  datatype NetworkView = NetworkView(data: Graph, isLoading: bool, error: string)

  const Initial: NetworkView := NetworkView(Empty, false, "")
  const InvalidFormat: string := "Invalid format"
  const NotFound: string := "Repo not found or limited."

  /** The state after `fetchNetwork(repoPath)` settles with `reply`. The graph
      is cleared at the start and stays empty on every error. */
  method FetchNetwork(prev: NetworkView, repoPath: string, reply: Http.Outcome<seq<Contributor>>)
    returns (next: NetworkView)
    ensures !next.isLoading
    ensures next.error != "" || reply.NetworkError? || Http.OkButMalformed(reply) ==> next.data == Empty
    ensures Identifier.Parse(repoPath).None? ==> next == NetworkView(Empty, false, InvalidFormat)
    ensures Identifier.Parse(repoPath).Some? && reply.NetworkError? ==> next == NetworkView(Empty, false, reply.message)
    ensures Identifier.Parse(repoPath).Some? && reply.Response? && !Http.IsOk(reply.status) ==>
      next == NetworkView(Empty, false, NotFound)
    ensures Identifier.Parse(repoPath).Some? && Http.OkButMalformed(reply) ==>
      next == NetworkView(Empty, false, reply.body.message)
    ensures Identifier.Parse(repoPath).Some? && Http.Delivered(reply) ==>
      next.error == "" && IsStarOf(next.data, reply.body.value)
  {
    next := NetworkView(Empty, true, "");
    if Identifier.Parse(repoPath).None? {
      next := next.(error := InvalidFormat);
    } else {
      match reply
      case NetworkError(msg) =>
        next := next.(error := msg);
      case Response(status, body) =>
        if !Http.IsOk(status) {
          next := next.(error := NotFound);
        } else if body.Malformed? {
          next := next.(error := body.message);
        } else {
          var g := BuildGraph(body.value);
          next := next.(data := g);
        }
    }
    next := next.(isLoading := false);
  }
}
