/** The knowledge-graph endpoint: for the signed-in user, one node per file,
    one node per resource, and one link from each resource's file to the
    resource. */
module Graph {
  import opened Wrappers
  import opened Seqs
  import opened Schema

  datatype Node = Node(id: Id, name: string, nodeType: string, val: nat, fullContent: Option<string>)

  datatype Link = Link(source: Id, target: Id)

  datatype Response =
    | Status(code: nat, body: string)
    | GraphJson(nodes: seq<Node>, links: seq<Link>)

  const PreviewLength: nat := 20

  /** `s.substring(0, n)`: the first `n` characters, or all of them. */
  function Prefix(s: string, n: nat): (r: string)
    ensures |r| == if |s| < n then |s| else n
    ensures r <= s
  {
    if |s| < n then s else s[..n]
  }

  function FileNode(f: FileRow): Node {
    Node(f.id, if f.name == "" then "Untitled File" else f.name, "file", 10, None)
  }

  function ResourceNode(r: Resource): Node {
    Node(r.id, Prefix(r.content, PreviewLength) + "...", "resource", 5, Some(r.content))
  }

  function Map<A, B>(f: A -> B, xs: seq<A>): (r: seq<B>)
    ensures |r| == |xs|
    ensures forall k :: 0 <= k < |xs| ==> r[k] == f(xs[k])
  {
    seq(|xs|, k requires 0 <= k < |xs| => f(xs[k]))
  }

  function ResourceLink(r: Resource): Link {
    Link(r.fileId, r.id)
  }

  function FileOwnedBy(userId: Id): FileRow -> bool {
    (f: FileRow) => f.userId == userId
  }

  function ResourceOwnedBy(userId: Id): Resource -> bool {
    (r: Resource) => r.userId == userId
  }

  /** `GET /api/graph`. `sessionUser` is the id of the signed-in user (the
      empty string when the session carries none); `dbFails` says that one
      of the two queries throws. */
  function Get(sessionUser: Option<Id>, files: seq<FileRow>, resources: seq<Resource>, dbFails: bool): (r: Response)
    ensures sessionUser.None? || sessionUser.value == "" <==> r == Status(401, "Unauthorized")
    ensures r.Status? <==> sessionUser.None? || sessionUser.value == "" || dbFails
    ensures sessionUser.Some? && sessionUser.value != "" && dbFails ==> r == Status(500, "Internal Server Error")
  {
    if sessionUser.None? || sessionUser.value == "" then Status(401, "Unauthorized")
    else if dbFails then Status(500, "Internal Server Error")
    else
      var fs := Filter(FileOwnedBy(sessionUser.value), files);
      var rs := Filter(ResourceOwnedBy(sessionUser.value), resources);
      GraphJson(Map(FileNode, fs) + Map(ResourceNode, rs), Map(ResourceLink, rs))
  }

  /** The graph of a signed-in user: file nodes first, then resource nodes,
      one of each per row of the user; file nodes are named after the file
      or "Untitled File" and weigh 10; resource nodes show the first twenty
      characters of the content and "...", keep the whole content and weigh
      5; link `i` joins the file of resource `i` to resource `i`, whose node
      it targets. */
  lemma GraphShape(userId: Id, files: seq<FileRow>, resources: seq<Resource>)
    requires userId != ""
    ensures var r := Get(Some(userId), files, resources, false);
      && r.GraphJson?
      && Layout(Filter(FileOwnedBy(userId), files), Filter(ResourceOwnedBy(userId), resources), r.nodes, r.links)
  {
    var fs := Filter(FileOwnedBy(userId), files);
    var rs := Filter(ResourceOwnedBy(userId), resources);
    var r := Get(Some(userId), files, resources, false);
    GraphParts(userId, files, resources);
    NodesShape(fs, rs, r.nodes, r.links);
  }

  /** The graph laid out from file rows `fs` and resource rows `rs`: file
      nodes first, then resource nodes, one of each per row, and one link
      per resource, with the names, types and weights of the endpoint. */
  ghost predicate Layout(fs: seq<FileRow>, rs: seq<Resource>, nodes: seq<Node>, links: seq<Link>) {
    && |nodes| == |fs| + |rs| && |links| == |rs|
    && (forall k :: 0 <= k < |fs| ==>
          && nodes[k].id == fs[k].id
          && nodes[k].nodeType == "file" && nodes[k].val == 10
          && nodes[k].name == (if fs[k].name == "" then "Untitled File" else fs[k].name))
    && (forall k :: 0 <= k < |rs| ==>
          && nodes[|fs| + k].id == rs[k].id
          && nodes[|fs| + k].nodeType == "resource" && nodes[|fs| + k].val == 5
          && nodes[|fs| + k].fullContent == Some(rs[k].content)
          && nodes[|fs| + k].name == Prefix(rs[k].content, 20) + "..."
          && links[k] == Link(rs[k].fileId, rs[k].id)
          && links[k].target == nodes[|fs| + k].id)
  }

  /** Building the node and link lists gives the layout. */
  lemma NodesShape(fs: seq<FileRow>, rs: seq<Resource>, nodes: seq<Node>, links: seq<Link>)
    requires nodes == Map(FileNode, fs) + Map(ResourceNode, rs)
    requires links == Map(ResourceLink, rs)
    ensures Layout(fs, rs, nodes, links)
  {
    var fn := Map(FileNode, fs);
    var rn := Map(ResourceNode, rs);
    forall k | 0 <= k < |fs| ensures nodes[k] == FileNode(fs[k]) {
      assert nodes[k] == fn[k];
    }
    forall k | 0 <= k < |rs| ensures nodes[|fs| + k] == ResourceNode(rs[k]) {
      assert nodes[|fs| + k] == rn[k];
    }
  }

  /** The graph of a signed-in user, as the concatenation of its parts. */
  lemma GraphParts(userId: Id, files: seq<FileRow>, resources: seq<Resource>)
    requires userId != ""
    ensures var r := Get(Some(userId), files, resources, false);
      var fs := Filter(FileOwnedBy(userId), files);
      var rs := Filter(ResourceOwnedBy(userId), resources);
      && r == GraphJson(Map(FileNode, fs) + Map(ResourceNode, rs), Map(ResourceLink, rs))
  {
  }

  /** Only the signed-in user's rows appear, and every one of them does. */
  lemma GraphIsOwnerScoped(userId: Id, files: seq<FileRow>, resources: seq<Resource>)
    requires userId != ""
    ensures var r := Get(Some(userId), files, resources, false);
      && r.GraphJson?
      && (forall n :: n in r.nodes ==>
            || (exists f :: f in files && f.userId == userId && n == FileNode(f))
            || (exists s :: s in resources && s.userId == userId && n == ResourceNode(s)))
      && (forall s :: s in resources && s.userId == userId ==> ResourceNode(s) in r.nodes && ResourceLink(s) in r.links)
      && (forall f :: f in files && f.userId == userId ==> FileNode(f) in r.nodes)
  {
    var fs := Filter(FileOwnedBy(userId), files);
    var rs := Filter(ResourceOwnedBy(userId), resources);
    GraphParts(userId, files, resources);
    NodesOfOwner(userId, fs, rs, files, resources);
    MapCovers(FileNode, fs);
    MapCovers(ResourceNode, rs);
    MapCovers(ResourceLink, rs);
  }

  /** Every element of the source list has its image in the mapped list. */
  lemma MapCovers<A, B>(f: A -> B, xs: seq<A>)
    ensures forall x :: x in xs ==> f(x) in Map(f, xs)
  {
    var r := Map(f, xs);
    forall x | x in xs ensures f(x) in r {
      var k :| 0 <= k < |xs| && xs[k] == x;
      assert r[k] == f(x);
    }
  }

  /** The nodes built from the user's files and resources come from rows
      of the user. */
  lemma NodesOfOwner(userId: Id, fs: seq<FileRow>, rs: seq<Resource>, files: seq<FileRow>, resources: seq<Resource>)
    requires fs == Filter(FileOwnedBy(userId), files)
    requires rs == Filter(ResourceOwnedBy(userId), resources)
    ensures forall n :: n in Map(FileNode, fs) + Map(ResourceNode, rs) ==>
      || (exists f :: f in files && f.userId == userId && n == FileNode(f))
      || (exists s :: s in resources && s.userId == userId && n == ResourceNode(s))
  {
    var fn := Map(FileNode, fs);
    var rn := Map(ResourceNode, rs);
    forall n | n in fn + rn
      ensures || (exists f :: f in files && f.userId == userId && n == FileNode(f))
              || (exists s :: s in resources && s.userId == userId && n == ResourceNode(s))
    {
      if n in fn {
        var k :| 0 <= k < |fn| && fn[k] == n;
        assert fs[k] in fs;
      } else {
        assert n in rn;
        var k :| 0 <= k < |rn| && rn[k] == n;
        assert rs[k] in rs;
      }
    }
  }
}
