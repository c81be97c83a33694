/** The selection of Hibernate mapping files under each `xmlMappingDirectories` entry:
    the filter that `setMappingsToMetadata` hands to `Files.find`. */
module MappingFiles {
  import opened Text
  import opened FileTree

  /** The two mapping-file endings, compared ignoring case. */
  predicate IsMappingName(name: string) {
    EndsWithIgnoreCase(name, "hbm.xml") || EndsWithIgnoreCase(name, "orm.xml")
  }

  /** The `Files.find` filter: a regular file with a mapping ending that is not the start
      directory itself. */
  predicate Selected(path: RelPath, n: Node) {
    n.File? && n.regular && IsMappingName(n.name) && path != []
  }

  /** The selected paths among `es`, in their order. */
  function SelectedPaths(es: seq<(RelPath, Node)>): (r: seq<RelPath>)
    ensures |r| <= |es|
    ensures forall p :: p in r <==> exists i :: 0 <= i < |es| && es[i].0 == p && Selected(es[i].0, es[i].1)
  {
    if es == [] then []
    else
      var rest := SelectedPaths(es[1..]);
      assert forall i :: 0 <= i < |es| - 1 ==> es[1..][i] == es[i + 1];
      if Selected(es[0].0, es[0].1) then [es[0].0] + rest else rest
  }

  /** What `Files.find` collects from the start directory `root`, in walk order. */
  function Found(root: Node): seq<RelPath> {
    SelectedPaths(Entries(root))
  }

  /** A found path names a regular mapping file strictly below the start: directories,
      other files and the start itself are never selected. */
  lemma FoundIsRegularMappingFile(root: Node, p: RelPath)
    requires p in Found(root)
    ensures p != []
    ensures exists i :: 0 < i < |Entries(root)| && Entries(root)[i].0 == p
                        && Entries(root)[i].1.File? && Entries(root)[i].1.regular
                        && IsMappingName(Entries(root)[i].1.name)
  {
    var i :| 0 <= i < |Entries(root)| && Entries(root)[i].0 == p && Selected(p, Entries(root)[i].1);
    assert i != 0;
  }

  /** Conversely, every regular mapping file below the start is found. */
  lemma RegularMappingFileIsFound(root: Node, i: nat)
    requires 0 < i < |Entries(root)|
    requires Entries(root)[i].1.File? && Entries(root)[i].1.regular && IsMappingName(Entries(root)[i].1.name)
    ensures Entries(root)[i].0 in Found(root)
  {
  }

  /** The endings are matched on the lower-cased name. */
  lemma MappingNameIsLowerCaseEnding(name: string)
    ensures IsMappingName(name) <==> EndsWith(Lower(name), Lower("hbm.xml")) || EndsWith(Lower(name), Lower("orm.xml"))
  {
    EndsWithIgnoreCaseIsLowerEndsWith(name, "hbm.xml");
    EndsWithIgnoreCaseIsLowerEndsWith(name, "orm.xml");
  }

  /** Upper-case endings are accepted. */
  lemma MixedCaseEndingAccepted()
    ensures IsMappingName("Example.HBM.XML")
  {
    var upper := "Example.HBM.XML"[8..];
    assert upper == "HBM.XML";
    assert Lower(upper) == "hbm.xml";
    LowerKeepsNonCapitals("hbm.xml");
  }

  /** A plain ".xml" file is not a mapping file. */
  lemma PlainXmlNameRejected()
    ensures !IsMappingName("example.xml")
  {
    var tail := "example.xml"[4..];
    assert tail[0] == 'p';
    assert Lower(tail)[0] == 'p';
    assert Lower("hbm.xml")[0] == 'h';
    assert Lower("orm.xml")[0] == 'o';
  }

  /** A start path that is itself a mapping file yields nothing: `Files.find` visits it,
      but it equals the start. */
  lemma MappingFileAsStartYieldsNothing(name: string)
    ensures Found(File(name, true)) == []
  {
  }
}
