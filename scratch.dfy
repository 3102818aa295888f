/** The per-request scratch directory as a tree value, and the three filesystem operations the
    file processor performs on it: `os.makedirs(d, exist_ok=True)`, `ZipFile.extractall(d)` and
    `os.listdir(d)`. */
module Scratch {
  import opened Wrappers

  newtype byte = x: int | 0 <= x < 256

  type Bytes = seq<byte>

  /** A node of the scratch tree. An `Archive` is a regular file that `zipfile.ZipFile` can open;
      `members` is the tree its `extractall` writes (directories as `Dir` members). */
  datatype Node =
    | File(bytes: Bytes)
    | Archive(bytes: Bytes, members: seq<Entry>)
    | Dir(entries: seq<Entry>)

  datatype Entry = Entry(name: string, node: Node)

  /** A path relative to the scratch directory, one component per element. */
  type Path = seq<string>

  function Names(es: seq<Entry>): (ns: seq<string>)
    ensures |ns| == |es| && forall k :: 0 <= k < |es| ==> ns[k] == es[k].name
  {
    if es == [] then [] else [es[0].name] + Names(es[1..])
  }

  predicate Unique(ns: seq<string>) {
    forall i, j :: 0 <= i < j < |ns| ==> ns[i] != ns[j]
  }

  /** Position of the entry called `name`, or -1. */
  function IndexOf(es: seq<Entry>, name: string): (k: int)
    ensures -1 <= k < |es|
    ensures k >= 0 ==> es[k].name == name
    ensures k < 0 ==> forall j :: 0 <= j < |es| ==> es[j].name != name
  {
    if es == [] then -1
    else if es[0].name == name then 0
    else var k := IndexOf(es[1..], name); if k < 0 then -1 else k + 1
  }

  /** The node at `p`, if there is one. */
  function Get(n: Node, p: Path): Option<Node>
    decreases |p|
  {
    if p == [] then Some(n)
    else match n
      case Dir(es) =>
        var k := IndexOf(es, p[0]);
        if k < 0 then None else Get(es[k].node, p[1..])
      case _ => None
  }

  /** `os.listdir` of the directory at `p`, in creation order. */
  function ListDir(n: Node, p: Path): seq<string> {
    match Get(n, p)
    case Some(Dir(es)) => Names(es)
    case _ => []
  }

  /** Nesting height: a plain file is 0; a directory and an archive are one more than their tallest member. */
  function Height(n: Node): nat {
    match n
    case File(_) => 0
    case Archive(_, ms) => 1 + MaxHeight(ms)
    case Dir(es) => 1 + MaxHeight(es)
  }

  function MaxHeight(es: seq<Entry>): nat {
    if es == [] then 0
    else
      var h := Height(es[0].node);
      var r := MaxHeight(es[1..]);
      if h < r then r else h
  }

  /** Every directory of the tree has distinct entry names. */
  predicate WF(n: Node) {
    match n
    case Dir(es) => WFEntries(es)
    case _ => true
  }

  predicate WFEntries(es: seq<Entry>) {
    Unique(Names(es)) && forall k :: 0 <= k < |es| ==> WF(es[k].node)
  }

  /** Replaces the entries of the directory at `p` (left as it is when `p` names no directory). */
  function SetEntries(n: Node, p: Path, es: seq<Entry>): Node
    decreases |p|
  {
    if p == [] then (if n.Dir? then Dir(es) else n)
    else match n
      case Dir(cs) =>
        var k := IndexOf(cs, p[0]);
        if k < 0 then n else Dir(cs[k := Entry(p[0], SetEntries(cs[k].node, p[1..], es))])
      case _ => n
  }

  const FileExists := "[Errno 17] File exists"
  const IsADirectory := "[Errno 21] Is a directory"

  /** `os.makedirs(<dir>/extracted, exist_ok=True)`, on the entries of `<dir>`. */
  function EnsureExtractDir(es: seq<Entry>): (r: Result<seq<Entry>>)
    ensures r.Ok? ==> IndexOf(r.value, "extracted") >= 0 && r.value[IndexOf(r.value, "extracted")].node.Dir?
  {
    var k := IndexOf(es, "extracted");
    if k < 0 then
      var r := es + [Entry("extracted", Dir([]))];
      assert r[|es|].name == "extracted";
      IndexOfAppend(es, Entry("extracted", Dir([])));
      Ok(r)
    else if es[k].node.Dir? then Ok(es)
    else Err(FileExists)
  }

  /** Writes one archive member into a directory's entries: a file member creates or overwrites
      the file of that name; a directory member is created if missing and its members are merged
      into it. A file member over a directory, or a directory member over a file, raises. */
  function Put(es: seq<Entry>, m: Entry): Result<seq<Entry>>
    decreases m, 1
  {
    var k := IndexOf(es, m.name);
    match m.node
    case Dir(children) =>
      if k < 0 then
        match MergeAll([], children)
        case Ok(cs) => Ok(es + [Entry(m.name, Dir(cs))])
        case Err(e) => Err(e)
      else if es[k].node.Dir? then
        match MergeAll(es[k].node.entries, children)
        case Ok(cs) => Ok(es[k := Entry(m.name, Dir(cs))])
        case Err(e) => Err(e)
      else Err(FileExists)
    case _ =>
      if k < 0 then Ok(es + [m])
      else if es[k].node.Dir? then Err(IsADirectory)
      else Ok(es[k := m])
  }

  /** `extractall`: the members written one after another. */
  function MergeAll(es: seq<Entry>, ms: seq<Entry>): Result<seq<Entry>>
    decreases ms, 0
  {
    if ms == [] then Ok(es)
    else
      assert ms[0] in ms;
      match Put(es, ms[0])
      case Ok(es') => MergeAll(es', ms[1..])
      case Err(e) => Err(e)
  }

  /** `os.makedirs(<parent>/extracted, exist_ok=True)` followed by `extractall(<parent>/extracted)`
      of `members`, where `<parent>` is the directory that holds the archive. */
  function ExtractInto(root: Node, parent: Path, members: seq<Entry>): Result<Node> {
    match Get(root, parent)
    case Some(Dir(es)) =>
      (match EnsureExtractDir(es)
       case Err(e) => Err(e)
       case Ok(es1) =>
         var k := IndexOf(es1, "extracted");
         match MergeAll(es1[k].node.entries, members)
         case Err(e) => Err(e)
         case Ok(xs) => Ok(SetEntries(root, parent, es1[k := Entry("extracted", Dir(xs))])))
    case _ => Err(IsADirectory)
  }

  /** `open(path, 'rb').read()`, with the message `open` raises when `path` is not a regular file. */
  function ReadBytes(root: Node, p: Path, pathText: string): Result<Bytes> {
    match Get(root, p)
    case Some(File(b)) => Ok(b)
    case Some(Archive(b, _)) => Ok(b)
    case Some(Dir(_)) => Err(IsADirectory + ": '" + pathText + "'")
    case None => Err("[Errno 2] No such file or directory: '" + pathText + "'")
  }

  lemma {:induction false} IndexOfAppend(es: seq<Entry>, e: Entry)
    requires IndexOf(es, e.name) < 0
    ensures IndexOf(es + [e], e.name) == |es|
  {
    if es != [] {
      assert (es + [e])[1..] == es[1..] + [e];
      IndexOfAppend(es[1..], e);
    }
  }

  // ---------------------------------------------------------------------------------------------
  // Height: a node at depth d of a tree of height at most H has height at most H - d.

  lemma MaxHeightAt(es: seq<Entry>, k: int)
    requires 0 <= k < |es|
    ensures Height(es[k].node) <= MaxHeight(es)
  {
    if k > 0 {
      MaxHeightAt(es[1..], k - 1);
      assert es[1..][k - 1] == es[k];
    }
  }

  lemma MaxHeightBound(es: seq<Entry>, b: nat)
    requires forall k :: 0 <= k < |es| ==> Height(es[k].node) <= b
    ensures MaxHeight(es) <= b
  {
    if es != [] {
      assert forall k :: 0 <= k < |es[1..]| ==> es[1..][k] == es[k + 1];
      MaxHeightBound(es[1..], b);
    }
  }

  /** The node at path `p` sits |p| levels below the root. */
  lemma GetHeight(n: Node, p: Path)
    requires Get(n, p).Some?
    ensures |p| + Height(Get(n, p).value) <= Height(n)
    decreases |p|
  {
    if p != [] {
      var k := IndexOf(n.entries, p[0]);
      MaxHeightAt(n.entries, k);
      GetHeight(n.entries[k].node, p[1..]);
    }
  }

  lemma SetEntriesHeight(n: Node, p: Path, es: seq<Entry>, h: nat)
    requires Height(n) <= h && |p| + 1 + MaxHeight(es) <= h
    ensures Height(SetEntries(n, p, es)) <= h
    decreases |p|
  {
    if p != [] && n.Dir? {
      var cs := n.entries;
      var k := IndexOf(cs, p[0]);
      if k >= 0 {
        MaxHeightAt(cs, k);
        SetEntriesHeight(cs[k].node, p[1..], es, h - 1);
        var cs' := cs[k := Entry(p[0], SetEntries(cs[k].node, p[1..], es))];
        forall j | 0 <= j < |cs'| ensures Height(cs'[j].node) <= h - 1 {
          if j != k { MaxHeightAt(cs, j); }
        }
        MaxHeightBound(cs', h - 1);
      }
    }
  }

  lemma {:induction false} PutHeight(es: seq<Entry>, m: Entry, b: nat)
    requires MaxHeight(es) <= b && Height(m.node) <= b
    ensures Put(es, m).Ok? ==> MaxHeight(Put(es, m).value) <= b
    decreases m, 1
  {
    var k := IndexOf(es, m.name);
    forall j | 0 <= j < |es| ensures Height(es[j].node) <= b { MaxHeightAt(es, j); }
    match m.node
    case Dir(children) =>
      if k < 0 {
        MergeAllHeight([], children, b - 1);
        var r := MergeAll([], children);
        if r.Ok? {
          var es' := es + [Entry(m.name, Dir(r.value))];
          MaxHeightBound(es', b);
        }
      } else if es[k].node.Dir? {
        MaxHeightAt(es, k);
        MergeAllHeight(es[k].node.entries, children, b - 1);
        var r := MergeAll(es[k].node.entries, children);
        if r.Ok? {
          var es' := es[k := Entry(m.name, Dir(r.value))];
          MaxHeightBound(es', b);
        }
      }
    case _ =>
      if k < 0 {
        MaxHeightBound(es + [m], b);
      } else if !es[k].node.Dir? {
        MaxHeightBound(es[k := m], b);
      }
  }

  /** `extractall` never makes a directory taller than its old content or the archive's members. */
  lemma {:induction false} MergeAllHeight(es: seq<Entry>, ms: seq<Entry>, b: nat)
    requires MaxHeight(es) <= b && MaxHeight(ms) <= b
    ensures MergeAll(es, ms).Ok? ==> MaxHeight(MergeAll(es, ms).value) <= b
    decreases ms, 0
  {
    if ms != [] {
      assert ms[0] in ms;
      MaxHeightAt(ms, 0);
      PutHeight(es, ms[0], b);
      var r := Put(es, ms[0]);
      if r.Ok? {
        forall j | 0 <= j < |ms[1..]| ensures Height(ms[1..][j].node) <= b { MaxHeightAt(ms, j + 1); }
        MaxHeightBound(ms[1..], b);
        MergeAllHeight(r.value, ms[1..], b);
      }
    }
  }

  /** Extracting an archive of height `a` found at depth d (so d + a <= H) into its sibling
      directory `extracted` keeps the whole tree within height H. */
  lemma ExtractIntoHeight(root: Node, parent: Path, members: seq<Entry>, h: nat)
    requires Height(root) <= h && |parent| + 2 + MaxHeight(members) <= h
    ensures ExtractInto(root, parent, members).Ok? ==> Height(ExtractInto(root, parent, members).value) <= h
  {
    var g := Get(root, parent);
    if g.Some? && g.value.Dir? {
      GetHeight(root, parent);
      var es := g.value.entries;
      var r1 := EnsureExtractDir(es);
      if r1.Ok? {
        var es1 := r1.value;
        var k := IndexOf(es1, "extracted");
        var b := h - |parent| - 1;
        forall j | 0 <= j < |es1| ensures Height(es1[j].node) <= b {
          if j < |es| { MaxHeightAt(es, j); assert es1[j] == es[j]; }
        }
        MaxHeightAt(es1, k);
        MaxHeightBound(es1, b);
        MergeAllHeight(es1[k].node.entries, members, b - 1);
        var r2 := MergeAll(es1[k].node.entries, members);
        if r2.Ok? {
          var es2 := es1[k := Entry("extracted", Dir(r2.value))];
          forall j | 0 <= j < |es2| ensures Height(es2[j].node) <= b {
            if j != k { MaxHeightAt(es1, j); }
          }
          MaxHeightBound(es2, b);
          SetEntriesHeight(root, parent, es2, h);
        }
      }
    }
  }

  // ---------------------------------------------------------------------------------------------
  // Well-formedness: no extraction step creates two entries of the same name in a directory.

  lemma WFAppend(es: seq<Entry>, e: Entry)
    requires WFEntries(es) && WF(e.node) && IndexOf(es, e.name) < 0
    ensures WFEntries(es + [e])
  {
    var r := es + [e];
    forall i, j | 0 <= i < j < |r| ensures Names(r)[i] != Names(r)[j] {
      if j == |es| { assert r[i] == es[i]; } else { assert r[i] == es[i] && r[j] == es[j]; }
    }
  }

  lemma WFUpdate(es: seq<Entry>, k: int, e: Entry)
    requires WFEntries(es) && WF(e.node) && 0 <= k < |es| && es[k].name == e.name
    ensures WFEntries(es[k := e])
  {
    assert Names(es[k := e]) == Names(es);
  }

  lemma {:induction false} PutWF(es: seq<Entry>, m: Entry)
    requires WFEntries(es)
    ensures Put(es, m).Ok? ==> WFEntries(Put(es, m).value)
    decreases m, 1
  {
    var k := IndexOf(es, m.name);
    match m.node
    case Dir(children) =>
      if k < 0 {
        MergeAllWF([], children);
        var r := MergeAll([], children);
        if r.Ok? { WFAppend(es, Entry(m.name, Dir(r.value))); }
      } else if es[k].node.Dir? {
        MergeAllWF(es[k].node.entries, children);
        var r := MergeAll(es[k].node.entries, children);
        if r.Ok? { WFUpdate(es, k, Entry(m.name, Dir(r.value))); }
      }
    case File(_) =>
      if k < 0 { WFAppend(es, m); } else if !es[k].node.Dir? { WFUpdate(es, k, m); }
    case Archive(_, _) =>
      if k < 0 { WFAppend(es, m); } else if !es[k].node.Dir? { WFUpdate(es, k, m); }
  }

  lemma {:induction false} MergeAllWF(es: seq<Entry>, ms: seq<Entry>)
    requires WFEntries(es)
    ensures MergeAll(es, ms).Ok? ==> WFEntries(MergeAll(es, ms).value)
    decreases ms, 0
  {
    if ms != [] {
      assert ms[0] in ms;
      PutWF(es, ms[0]);
      var r := Put(es, ms[0]);
      if r.Ok? { MergeAllWF(r.value, ms[1..]); }
    }
  }

  lemma {:induction false} GetWF(n: Node, p: Path)
    requires WF(n) && Get(n, p).Some?
    ensures WF(Get(n, p).value)
    decreases |p|
  {
    if p != [] {
      GetWF(n.entries[IndexOf(n.entries, p[0])].node, p[1..]);
    }
  }

  lemma {:induction false} SetEntriesWF(n: Node, p: Path, es: seq<Entry>)
    requires WF(n) && WFEntries(es)
    ensures WF(SetEntries(n, p, es))
    decreases |p|
  {
    if p != [] && n.Dir? {
      var k := IndexOf(n.entries, p[0]);
      if k >= 0 {
        SetEntriesWF(n.entries[k].node, p[1..], es);
        WFUpdate(n.entries, k, Entry(p[0], SetEntries(n.entries[k].node, p[1..], es)));
      }
    }
  }

  /** makedirs followed by extractall keeps every directory's entry names distinct. */
  lemma ExtractIntoWF(root: Node, parent: Path, members: seq<Entry>)
    requires WF(root)
    ensures ExtractInto(root, parent, members).Ok? ==> WF(ExtractInto(root, parent, members).value)
  {
    var g := Get(root, parent);
    if g.Some? && g.value.Dir? {
      GetWF(root, parent);
      var es := g.value.entries;
      if IndexOf(es, "extracted") < 0 { WFAppend(es, Entry("extracted", Dir([]))); }
      var r1 := EnsureExtractDir(es);
      if r1.Ok? {
        var es1 := r1.value;
        var k := IndexOf(es1, "extracted");
        assert WFEntries(es1);
        assert WF(es1[k].node);
        MergeAllWF(es1[k].node.entries, members);
        var r2 := MergeAll(es1[k].node.entries, members);
        if r2.Ok? {
          WFUpdate(es1, k, Entry("extracted", Dir(r2.value)));
          SetEntriesWF(root, parent, es1[k := Entry("extracted", Dir(r2.value))]);
        }
      }
    }
  }

  // ---------------------------------------------------------------------------------------------
  // Listings: extraction only adds names, after the ones already there.

  lemma {:induction false} GetAppend(n: Node, p: Path, q: Path)
    ensures Get(n, p + q) == (if Get(n, p).Some? then Get(Get(n, p).value, q) else None)
    decreases |p|
  {
    if p == [] {
      assert p + q == q;
    } else {
      assert (p + q)[0] == p[0] && (p + q)[1..] == p[1..] + q;
      if n.Dir? {
        var k := IndexOf(n.entries, p[0]);
        if k >= 0 { GetAppend(n.entries[k].node, p[1..], q); }
      }
    }
  }

  lemma {:induction false} GetSetEntries(n: Node, p: Path, es: seq<Entry>)
    requires Get(n, p).Some? && Get(n, p).value.Dir?
    ensures Get(SetEntries(n, p, es), p) == Some(Dir(es))
    decreases |p|
  {
    if p != [] {
      var k := IndexOf(n.entries, p[0]);
      GetSetEntries(n.entries[k].node, p[1..], es);
      var cs := n.entries[k := Entry(p[0], SetEntries(n.entries[k].node, p[1..], es))];
      assert cs[k].name == p[0];
      assert IndexOf(cs, p[0]) == k by { IndexOfUpdate(n.entries, k, cs[k]); }
    }
  }

  lemma {:induction false} IndexOfUpdate(es: seq<Entry>, k: int, e: Entry)
    requires 0 <= k < |es| && IndexOf(es, e.name) == k
    ensures IndexOf(es[k := e], e.name) == k
  {
    if k > 0 {
      assert es[k := e][1..] == es[1..][k - 1 := e];
      IndexOfUpdate(es[1..], k - 1, e);
    }
  }

  lemma NamesAppend(es: seq<Entry>, e: Entry)
    ensures Names(es + [e]) == Names(es) + [e.name]
  {
  }

  lemma {:induction false} PutNames(es: seq<Entry>, m: Entry)
    ensures Put(es, m).Ok? ==> Names(es) <= Names(Put(es, m).value) && m.name in Names(Put(es, m).value)
  {
    var k := IndexOf(es, m.name);
    var r := Put(es, m);
    if r.Ok? {
      if k < 0 {
        assert r.value[|es|].name == m.name;
        assert Names(r.value)[|es|] == m.name;
        assert Names(es) == Names(r.value)[..|es|];
      } else {
        assert Names(r.value) == Names(es);
        assert Names(es)[k] == m.name;
      }
    }
  }

  /** `extractall` keeps the names already in the directory, in place, and writes every member. */
  lemma {:induction false} MergeAllNames(es: seq<Entry>, ms: seq<Entry>)
    ensures MergeAll(es, ms).Ok? ==>
      Names(es) <= Names(MergeAll(es, ms).value)
      && forall k :: 0 <= k < |ms| ==> ms[k].name in Names(MergeAll(es, ms).value)
    decreases ms
  {
    if ms != [] {
      var r := Put(es, ms[0]);
      PutNames(es, ms[0]);
      if r.Ok? {
        MergeAllNames(r.value, ms[1..]);
        var f := MergeAll(r.value, ms[1..]);
        if f.Ok? {
          forall k | 0 <= k < |ms| ensures ms[k].name in Names(f.value) {
            if k == 0 {
              var j :| 0 <= j < |Names(r.value)| && Names(r.value)[j] == ms[0].name;
              assert Names(f.value)[j] == ms[0].name;
            } else {
              assert ms[k] == ms[1..][k - 1];
            }
          }
        }
      }
    }
  }

  /** After `makedirs` and `extractall` into `<parent>/extracted`, its listing starts with what it
      listed before (an earlier sibling archive's files stay first) and holds every top-level member. */
  lemma ExtractIntoListing(root: Node, parent: Path, members: seq<Entry>)
    ensures ExtractInto(root, parent, members).Ok? ==>
      var after := ListDir(ExtractInto(root, parent, members).value, parent + ["extracted"]);
      ListDir(root, parent + ["extracted"]) <= after
      && forall k :: 0 <= k < |members| ==> members[k].name in after
  {
    var g := Get(root, parent);
    if g.Some? && g.value.Dir? && EnsureExtractDir(g.value.entries).Ok? {
      var es := g.value.entries;
      var es1 := EnsureExtractDir(es).value;
      var k := IndexOf(es1, "extracted");
      var r2 := MergeAll(es1[k].node.entries, members);
      MergeAllNames(es1[k].node.entries, members);
      if r2.Ok? {
        ListingAfter(root, parent, es1, k, r2.value);
        ListingBefore(root, parent, es);
      }
    }
  }

  lemma ListingAfter(root: Node, parent: Path, es1: seq<Entry>, k: int, xs: seq<Entry>)
    requires Get(root, parent).Some? && Get(root, parent).value.Dir?
    requires 0 <= k < |es1| && IndexOf(es1, "extracted") == k
    ensures ListDir(SetEntries(root, parent, es1[k := Entry("extracted", Dir(xs))]), parent + ["extracted"]) == Names(xs)
  {
    var es2 := es1[k := Entry("extracted", Dir(xs))];
    var root' := SetEntries(root, parent, es2);
    GetSetEntries(root, parent, es2);
    GetAppend(root', parent, ["extracted"]);
    IndexOfUpdate(es1, k, Entry("extracted", Dir(xs)));
    assert Get(root', parent + ["extracted"]) == Some(Dir(xs));
  }

  lemma ListingBefore(root: Node, parent: Path, es: seq<Entry>)
    requires Get(root, parent) == Some(Dir(es)) && EnsureExtractDir(es).Ok?
    ensures var es1 := EnsureExtractDir(es).value;
      ListDir(root, parent + ["extracted"]) <= Names(es1[IndexOf(es1, "extracted")].node.entries)
  {
    GetAppend(root, parent, ["extracted"]);
    var j := IndexOf(es, "extracted");
    if j >= 0 {
      assert EnsureExtractDir(es).value == es;
      assert Get(root, parent + ["extracted"]) == Some(es[j].node);
    } else {
      assert Get(root, parent + ["extracted"]) == None;
    }
  }
}
