/** A directory tree as the plugin's walks see it, and the pre-order listing of its
    entries that `Files.find` and `listFiles` recursion produce. */
module FileTree {

  /** A directory entry: a file (regular or not, e.g. a link or a device) or a directory
      with its listing in order. */
  datatype Node = File(name: string, regular: bool) | Dir(name: string, children: seq<Node>)

  /** The names leading from the start directory to an entry; the start itself is `[]`. */
  type RelPath = seq<string>

  /** Every entry below and including `n`, in pre-order, with its path from `n`. */
  function Entries(n: Node): (r: seq<(RelPath, Node)>)
    ensures |r| > 0 && r[0] == ([], n)
    ensures forall i :: 0 < i < |r| ==> r[i].0 != [] && r[i].0[|r[i].0| - 1] == r[i].1.name
  {
    [([], n)] + (if n.Dir? then EntriesIn(n.children) else [])
  }

  /** The entries of a directory listing; each path starts with a child's name and ends
      with the entry's own name. */
  function EntriesIn(cs: seq<Node>): (r: seq<(RelPath, Node)>)
    ensures forall i :: 0 <= i < |r| ==> r[i].0 != [] && r[i].0[|r[i].0| - 1] == r[i].1.name
  {
    if cs == [] then []
    else
      var es := Entries(cs[0]);
      var u := Under(cs[0].name, es);
      assert forall i :: 0 < i < |u| ==> u[i].0[|u[i].0| - 1] == es[i].0[|es[i].0| - 1];
      u + EntriesIn(cs[1..])
  }

  /** The entries of a child, seen from its parent. */
  function Under(name: string, es: seq<(RelPath, Node)>): (r: seq<(RelPath, Node)>)
    ensures |r| == |es|
    ensures forall i :: 0 <= i < |r| ==> r[i] == ([name] + es[i].0, es[i].1)
  {
    seq(|es|, i requires 0 <= i < |es| => ([name] + es[i].0, es[i].1))
  }

  /** Seen from the parent, an entry of the child is one whose path starts with the
      child's name and continues with the entry's path inside the child. */
  lemma UnderMembership(name: string, es: seq<(RelPath, Node)>, p: RelPath, n: Node)
    ensures (p, n) in Under(name, es) <==> p != [] && p[0] == name && (p[1..], n) in es
  {
    var u := Under(name, es);
    if (p, n) in u {
      var i :| 0 <= i < |u| && u[i] == (p, n);
      assert p[1..] == es[i].0;
    }
    if p != [] && p[0] == name && (p[1..], n) in es {
      var i :| 0 <= i < |es| && es[i] == (p[1..], n);
      assert [name] + p[1..] == p;
      assert u[i] == (p, n);
    }
  }
}
