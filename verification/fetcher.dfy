/** The pure half of `fetch_projects` (src/main.rs): turning the decoded
    response of the projects query into the list of projects the browser shows,
    and the caller's fallback to an empty list when the fetch fails. */
module Fetcher {
  import opened Wrappers
  import opened Json

  /** One project as the browser shows it. */
  datatype Project = Project(name: string, description: string, webUrl: string)

  /** Placeholders for a member that is missing or is not a string. */
  const MissingName: string := "N/A"
  const MissingDescription: string := "No description"
  const MissingWebUrl: string := "N/A"

  /** Why the request, or the decoding of its body, failed. The transport is
      not modelled, so the error is only its message. */
  datatype FetchError = FetchError(message: string)

  /** `s` is what a node yields for `key`: the member's string when the node has
      one, and otherwise `default`. */
  ghost predicate FieldIs(node: Value, key: string, default: string, s: string)
  {
    || HasStringMember(node, key, s)
    || (s == default && forall t :: !HasStringMember(node, key, t))
  }

  /** A member read with a fallback: `node.get(key).and_then(as_str).unwrap_or(default)`. */
  function FieldOr(node: Value, key: string, default: string): (r: string)
    ensures FieldIs(node, key, default, r)
    ensures forall s :: FieldIs(node, key, default, s) ==> s == r
  {
    match Get(node, key)
    case Some(v) => AsStr(v).GetOr(default)
    case None => default
  }

  /** One element of `nodes`, read member by member with placeholders. */
  function NodeToProject(node: Value): (r: Project)
    ensures FieldIs(node, "name", MissingName, r.name)
    ensures FieldIs(node, "description", MissingDescription, r.description)
    ensures FieldIs(node, "webUrl", MissingWebUrl, r.webUrl)
  {
    Project(
      FieldOr(node, "name", MissingName),
      FieldOr(node, "description", MissingDescription),
      FieldOr(node, "webUrl", MissingWebUrl))
  }

  /** Every node turned into a project, in order. */
  function MapNodes(nodes: seq<Value>): (r: seq<Project>)
    ensures |r| == |nodes|
    ensures forall i :: 0 <= i < |nodes| ==> r[i] == NodeToProject(nodes[i])
    decreases |nodes|
  {
    if |nodes| == 0 then []
    else [NodeToProject(nodes[0])] + MapNodes(nodes[1..])
  }

  /** The response holds the array `nodes` at `data.projects.nodes`. */
  ghost predicate NodesPath(resp: Value, nodes: seq<Value>)
  {
    && Get(resp, "data").Some?
    && Get(Get(resp, "data").value, "projects").Some?
    && Get(Get(Get(resp, "data").value, "projects").value, "nodes") == Some(Arr(nodes))
  }

  /** `response.get("data").and_then(get "projects").and_then(get "nodes").and_then(as_array)`. */
  function NodesAt(resp: Value): (r: Option<seq<Value>>)
    ensures r.Some? ==> NodesPath(resp, r.value)
    ensures r.None? ==> forall nodes :: !NodesPath(resp, nodes)
  {
    match Get(resp, "data")
    case None => None
    case Some(data) =>
      match Get(data, "projects")
      case None => None
      case Some(projects) =>
        match Get(projects, "nodes")
        case None => None
        case Some(nodes) => AsArray(nodes)
  }

  /** The projects of a decoded response: one per node of `data.projects.nodes`,
      in order, and none when that path is missing or is not an array. */
  function ExtractProjects(resp: Value): (r: seq<Project>)
    ensures (forall nodes :: !NodesPath(resp, nodes)) ==> r == []
    ensures forall nodes :: NodesPath(resp, nodes) ==>
      |r| == |nodes| && forall i :: 0 <= i < |nodes| ==> r[i] == NodeToProject(nodes[i])
  {
    match NodesAt(resp)
    case None => []
    case Some(nodes) => MapNodes(nodes)
  }

  /** Extraction distributes over a split of the node array, so the projects
      come out in the order of the nodes. */
  lemma {:induction false} MapNodesAppend(a: seq<Value>, b: seq<Value>)
    ensures MapNodes(a + b) == MapNodes(a) + MapNodes(b)
    decreases |a|
  {
    if |a| == 0 {
      assert a + b == b;
    } else {
      assert (a + b)[1..] == a[1..] + b;
      MapNodesAppend(a[1..], b);
    }
  }

  /** The loop of `fetch_projects`: push one project per node. */
  method PushProjects(nodes: seq<Value>) returns (projects: seq<Project>)
    ensures projects == MapNodes(nodes)
  {
    projects := [];
    var i := 0;
    while i < |nodes|
      invariant 0 <= i <= |nodes|
      invariant projects == MapNodes(nodes[..i])
    {
      MapNodesAppend(nodes[..i], [nodes[i]]);
      assert nodes[..i + 1] == nodes[..i] + [nodes[i]];
      projects := projects + [NodeToProject(nodes[i])];
      i := i + 1;
    }
    assert nodes[..i] == nodes;
  }

  /** The extraction half of `fetch_projects`, as the source writes it: an empty
      list, filled by the loop only when the node array is found. */
  method CollectProjects(resp: Value) returns (projects: seq<Project>)
    ensures projects == ExtractProjects(resp)
  {
    projects := [];
    var found := NodesAt(resp);
    if found.Some? {
      projects := PushProjects(found.value);
    }
  }

  /** `fetch_projects` with the request and body decoding as a parameter: the
      only failures are the transport's, and a decoded response always yields a
      list. */
  function FetchProjects(transport: Result<Value, FetchError>): (r: Result<seq<Project>, FetchError>)
    ensures r.Failure? <==> transport.Failure?
    ensures r.Failure? ==> r.error == transport.error
    ensures r.Success? ==> r.value == ExtractProjects(transport.value)
  {
    match transport
    case Failure(e) => Failure(e)
    case Success(resp) => Success(ExtractProjects(resp))
  }

  /** The caller's policy: a failed fetch is replaced by no projects. */
  function ProjectsOrEmpty(fetched: Result<seq<Project>, FetchError>): (r: seq<Project>)
    ensures fetched.Failure? ==> r == []
    ensures fetched.Success? ==> r == fetched.value
  {
    match fetched
    case Failure(_) => []
    case Success(projects) => projects
  }

  /** A fully populated node yields its three strings. */
  lemma CompleteNodeScenario()
    ensures ExtractProjects(
      Obj([("data", Obj([("projects", Obj([("nodes", Arr([
        Obj([("name", Str("A")), ("description", Str("d")), ("webUrl", Str("http://x"))])]))]))]))]))
      == [Project("A", "d", "http://x")]
  {
    var node := Obj([("name", Str("A")), ("description", Str("d")), ("webUrl", Str("http://x"))]);
    var projects := Obj([("nodes", Arr([node]))]);
    var data := Obj([("projects", projects)]);
    var resp := Obj([("data", data)]);
    assert Get(resp, "data") == Some(data);
    assert Get(data, "projects") == Some(projects);
    assert Get(projects, "nodes") == Some(Arr([node]));
    assert NodesAt(resp) == Some([node]);
    var m := node.members;
    assert m[..2][..1] == m[..1] && m[..1][0] == ("name", Str("A"));
    assert Lookup(m[..1], "name") == Some(Str("A"));
    assert Lookup(m[..2], "name") == Some(Str("A"));
    assert Get(node, "name") == Some(Str("A"));
    assert Get(node, "description") == Some(Str("d"));
    assert Get(node, "webUrl") == Some(Str("http://x"));
  }

  /** A node with only a name gets both placeholders. */
  lemma PartialNodeScenario()
    ensures ExtractProjects(
      Obj([("data", Obj([("projects", Obj([("nodes", Arr([Obj([("name", Str("A"))])]))]))]))]))
      == [Project("A", MissingDescription, MissingWebUrl)]
  {
    var node := Obj([("name", Str("A"))]);
    assert node.members[0].0 == "name";
    assert Lookup(node.members, "name") == Some(Str("A"));
    var projects := Obj([("nodes", Arr([node]))]);
    var data := Obj([("projects", projects)]);
    var resp := Obj([("data", data)]);
    assert Get(resp, "data") == Some(data);
    assert Get(data, "projects") == Some(projects);
    assert Get(projects, "nodes") == Some(Arr([node]));
    assert NodesAt(resp) == Some([node]);
    assert Get(node, "name") == Some(Str("A"));
    assert Get(node, "description") == None;
    assert Get(node, "webUrl") == None;
  }
}
