/** Entity-class discovery in a package (`getAllEntityClasses` and `findClasses`): a walk
    over the package directories that turns every `.class` file into a fully-qualified
    class name and keeps the names the class loader reports as `@Entity` classes. */
module EntityDiscovery {
  import opened Wrappers
  import opened Text
  import opened FileTree

  const ClassSuffix := ".class"

  /** `loadClass` followed by `isAnnotationPresent(Entity.class)`; `None` is the
      `ClassNotFoundException` that ends the walk. */
  type Loader = string -> Option<bool>

  /** `getResources` of the context class loader: the directory of each resource URL for a
      resource path, `None` when that directory does not exist. */
  type Resources = string -> seq<Option<seq<Node>>>

  predicate IsClassFile(n: Node) {
    n.File? && EndsWith(n.name, ClassSuffix)
  }

  /** The file name without its last six characters. */
  function BaseName(name: string): (r: string)
    requires EndsWith(name, ClassSuffix)
    ensures r + ClassSuffix == name
  {
    name[..|name| - |ClassSuffix|]
  }

  // ---------------------------------------------------------------------------
  // The walk, as the source recurses

  /** One entry of a directory of package `pkg`: a directory is a sub-package, a `.class`
      file a class to load, anything else is skipped. */
  function ClassesOf(n: Node, pkg: string, load: Loader): (r: Result<seq<string>, string>)
    ensures r.Success? ==> forall c :: c in r.value ==> load(c) == Some(true)
    ensures r.Failure? ==> load(r.error).None?
  {
    match n
    case Dir(name, cs) => ClassesIn(cs, pkg + "." + name, load)
    case File(name, _) =>
      if !EndsWith(name, ClassSuffix) then Success([])
      else
        var cn := pkg + "." + BaseName(name);
        match load(cn)
        case None => Failure(cn)
        case Some(entity) => Success(if entity then [cn] else [])
  }

  /** A directory listing of package `pkg`, in listing order. */
  function ClassesIn(cs: seq<Node>, pkg: string, load: Loader): (r: Result<seq<string>, string>)
    ensures r.Success? ==> forall c :: c in r.value ==> load(c) == Some(true)
    ensures r.Failure? ==> load(r.error).None?
  {
    if cs == [] then Success([]) else Combine(ClassesOf(cs[0], pkg, load), ClassesIn(cs[1..], pkg, load))
  }

  /** `findClasses`: a directory that does not exist contributes nothing. */
  function FindIn(directory: Option<seq<Node>>, pkg: string, load: Loader): (r: Result<seq<string>, string>)
    ensures directory.None? ==> r == Success([])
    ensures r.Success? ==> forall c :: c in r.value ==> load(c) == Some(true)
    ensures r.Failure? ==> load(r.error).None?
  {
    match directory
    case None => Success([])
    case Some(cs) => ClassesIn(cs, pkg, load)
  }

  /** The loop of `getAllEntityClasses` over the package directories. */
  function ClassesInDirs(dirs: seq<Option<seq<Node>>>, pkg: string, load: Loader): (r: Result<seq<string>, string>)
    ensures r.Success? ==> forall c :: c in r.value ==> load(c) == Some(true)
    ensures r.Failure? ==> load(r.error).None?
  {
    if dirs == [] then Success([]) else Combine(FindIn(dirs[0], pkg, load), ClassesInDirs(dirs[1..], pkg, load))
  }

  /** `getAllEntityClasses`: the package name is trimmed; a blank name and a package
      without directories give no classes; otherwise the classes of every directory, in
      order. */
  function EntityClasses(packageNameValue: string, resources: Resources, load: Loader): (r: Result<seq<string>, string>)
    ensures IsBlank(Some(Trim(packageNameValue))) ==> r == Success([])
    ensures !IsBlank(Some(Trim(packageNameValue))) ==>
            r == ClassesInDirs(resources(ReplaceChar(Trim(packageNameValue), '.', '/')), Trim(packageNameValue), load)
  {
    var packageName := Trim(packageNameValue);
    if IsBlank(Some(packageName)) then Success([])
    else
      var dirs := resources(ReplaceChar(packageName, '.', '/'));
      if dirs == [] then Success([]) else ClassesInDirs(dirs, packageName, load)
  }

  // ---------------------------------------------------------------------------
  // The same result from the flat listing of the tree

  /** `(d + ".")*` over the directory names. */
  function Dotted(ds: seq<string>): string {
    if ds == [] then "" else ds[0] + "." + Dotted(ds[1..])
  }

  /** The class name of `file`, reached through the directories `ds` below package `pkg`. */
  function QualifiedName(pkg: string, ds: seq<string>, file: string): string
    requires EndsWith(file, ClassSuffix)
  {
    pkg + "." + Dotted(ds) + BaseName(file)
  }

  /** The class names of the `.class` files among `es`, in order: the names the walk would
      try to load. */
  function Candidates(es: seq<(RelPath, Node)>, pkg: string): seq<string>
    requires forall i :: 0 <= i < |es| ==> es[i].0 != []
  {
    if es == [] then []
    else
      var (p, n) := es[0];
      (if IsClassFile(n) then [QualifiedName(pkg, p[..|p| - 1], n.name)] else []) + Candidates(es[1..], pkg)
  }

  /** Loading `names` in order: the first unknown class fails, entity classes are kept. */
  function LoadAll(names: seq<string>, load: Loader): (r: Result<seq<string>, string>)
    ensures r.Failure? <==> exists i :: 0 <= i < |names| && load(names[i]).None?
    ensures r.Failure? ==> exists i :: 0 <= i < |names| && names[i] == r.error && load(names[i]).None?
                                      && forall j :: 0 <= j < i ==> load(names[j]).Some?
    ensures r.Success? ==> forall c :: c in r.value <==> c in names && load(c) == Some(true)
  {
    if names == [] then Success([])
    else
      var rest := LoadAll(names[1..], load);
      assert forall i :: 0 < i < |names| ==> names[1..][i - 1] == names[i];
      match load(names[0])
      case None => Failure(names[0])
      case Some(entity) =>
        if rest.Failure? then
          var i :| 0 <= i < |names[1..]| && names[1..][i] == rest.error && load(names[1..][i]).None?
                   && forall j :: 0 <= j < i ==> load(names[1..][j]).Some?;
          assert names[i + 1] == rest.error;
          rest
        else Success((if entity then [names[0]] else []) + rest.value)
  }

  lemma {:induction false} CandidatesAppend(a: seq<(RelPath, Node)>, b: seq<(RelPath, Node)>, pkg: string)
    requires forall i :: 0 <= i < |a| ==> a[i].0 != []
    requires forall i :: 0 <= i < |b| ==> b[i].0 != []
    ensures Candidates(a + b, pkg) == Candidates(a, pkg) + Candidates(b, pkg)
    decreases |a|
  {
    if a == [] {
      assert a + b == b;
    } else {
      assert (a + b)[1..] == a[1..] + b;
      CandidatesAppend(a[1..], b, pkg);
    }
  }

  lemma {:induction false} LoadAllAppend(a: seq<string>, b: seq<string>, load: Loader)
    ensures LoadAll(a + b, load) == Combine(LoadAll(a, load), LoadAll(b, load))
    decreases |a|
  {
    if a == [] {
      assert a + b == b;
      if LoadAll(b, load).Success? {
        assert [] + LoadAll(b, load).value == LoadAll(b, load).value;
      }
    } else {
      assert (a + b)[1..] == a[1..] + b;
      LoadAllAppend(a[1..], b, load);
      if load(a[0]).Some? && LoadAll(a[1..] + b, load).Success? {
        var h: seq<string> := if load(a[0]).value then [a[0]] else [];
        assert LoadAll(a[1..], load).Success?;
        assert h + (LoadAll(a[1..], load).value + LoadAll(b, load).value)
            == (h + LoadAll(a[1..], load).value) + LoadAll(b, load).value;
      }
    }
  }

  /** Seen from the parent, a child directory's names gain its name as a package segment. */
  lemma {:induction false} CandidatesUnder(name: string, es: seq<(RelPath, Node)>, pkg: string)
    requires forall i :: 0 <= i < |es| ==> es[i].0 != []
    ensures Candidates(Under(name, es), pkg) == Candidates(es, pkg + "." + name)
    decreases |es|
  {
    if es != [] {
      var u := Under(name, es);
      assert u[1..] == Under(name, es[1..]);
      CandidatesUnder(name, es[1..], pkg);
      var (p, n) := es[0];
      if IsClassFile(n) {
        var ds := p[..|p| - 1];
        assert u[0].0[..|u[0].0| - 1] == [name] + ds;
        DottedCons(name, ds);
        assert QualifiedName(pkg, [name] + ds, n.name) == QualifiedName(pkg + "." + name, ds, n.name);
      }
    }
  }

  lemma DottedCons(d: string, ds: seq<string>)
    ensures Dotted([d] + ds) == d + "." + Dotted(ds)
  {
    assert ([d] + ds)[1..] == ds;
  }

  lemma UnderAppend(name: string, a: seq<(RelPath, Node)>, b: seq<(RelPath, Node)>)
    ensures Under(name, a + b) == Under(name, a) + Under(name, b)
  {
  }

  /** The walk of one entry loads exactly the candidates of its subtree. */
  lemma {:induction false} ClassesOfIsLoadAll(n: Node, pkg: string, load: Loader)
    ensures ClassesOf(n, pkg, load) == LoadAll(Candidates(Under(n.name, Entries(n)), pkg), load)
    decreases n
  {
    match n
    case Dir(name, cs) =>
      var top := Under(name, [([], n)]);
      UnderAppend(name, [([], n)], EntriesIn(cs));
      CandidatesAppend(top, Under(name, EntriesIn(cs)), pkg);
      CandidatesUnder(name, EntriesIn(cs), pkg);
      ClassesInIsLoadAll(cs, pkg + "." + name, load);
      assert Candidates(top, pkg) == [];
      assert [] + Candidates(EntriesIn(cs), pkg + "." + name) == Candidates(EntriesIn(cs), pkg + "." + name);
    case File(name, _) =>
      FileIsLoadAll(n, pkg, load);
  }

  lemma FileIsLoadAll(n: Node, pkg: string, load: Loader)
    requires n.File?
    ensures ClassesOf(n, pkg, load) == LoadAll(Candidates(Under(n.name, Entries(n)), pkg), load)
  {
    assert Entries(n) == [([], n)] + [];
    var top := Under(n.name, Entries(n));
    assert [n.name] + [] == [n.name];
    assert top == [([n.name], n)];
    if IsClassFile(n) {
      var cn := pkg + "." + BaseName(n.name);
      assert pkg + "." + Dotted([]) == pkg + ".";
      assert QualifiedName(pkg, [], n.name) == cn;
      assert Candidates(top, pkg) == [cn] + Candidates([], pkg);
      assert [cn][1..] == [];
      if load(cn).Some? {
        var h: seq<string> := if load(cn).value then [cn] else [];
        assert h + [] == h;
      }
    }
  }

  /** The walk of a listing loads exactly the candidates of its entries, in order: the
      recursive walk and the flat listing agree. */
  lemma {:induction false} ClassesInIsLoadAll(cs: seq<Node>, pkg: string, load: Loader)
    ensures ClassesIn(cs, pkg, load) == LoadAll(Candidates(EntriesIn(cs), pkg), load)
    decreases cs
  {
    if cs != [] {
      ClassesOfIsLoadAll(cs[0], pkg, load);
      ClassesInIsLoadAll(cs[1..], pkg, load);
      var u := Under(cs[0].name, Entries(cs[0]));
      CandidatesAppend(u, EntriesIn(cs[1..]), pkg);
      LoadAllAppend(Candidates(u, pkg), Candidates(EntriesIn(cs[1..]), pkg), load);
    }
  }

  /** Every candidate is named after a `.class` file of the listing: the package, one
      segment per directory on the way, and the file name without ".class". */
  lemma {:induction false} CandidateIsClassFileName(es: seq<(RelPath, Node)>, pkg: string, c: string)
    requires forall i :: 0 <= i < |es| ==> es[i].0 != []
    requires c in Candidates(es, pkg)
    ensures exists i :: 0 <= i < |es| && IsClassFile(es[i].1)
                        && c == QualifiedName(pkg, es[i].0[..|es[i].0| - 1], es[i].1.name)
    decreases |es|
  {
    var (p, n) := es[0];
    if IsClassFile(n) && c == QualifiedName(pkg, p[..|p| - 1], n.name) {
      assert 0 < |es|;
    } else {
      CandidateIsClassFileName(es[1..], pkg, c);
      var i :| 0 <= i < |es[1..]| && IsClassFile(es[1..][i].1)
               && c == QualifiedName(pkg, es[1..][i].0[..|es[1..][i].0| - 1], es[1..][i].1.name);
      assert es[1..][i] == es[i + 1];
    }
  }

  /** The names a successful walk returns are entity classes named after `.class` files
      of the tree: `pkg.d1.d2.Base` for the file `d1/d2/Base.class`. Files without that
      ending are never loaded. */
  lemma DiscoveredClassShape(cs: seq<Node>, pkg: string, load: Loader, c: string)
    requires ClassesIn(cs, pkg, load).Success? && c in ClassesIn(cs, pkg, load).value
    ensures load(c) == Some(true)
    ensures exists i :: 0 <= i < |EntriesIn(cs)| && IsClassFile(EntriesIn(cs)[i].1)
                        && var p := EntriesIn(cs)[i].0;
                           c == QualifiedName(pkg, p[..|p| - 1], p[|p| - 1])
  {
    ClassesInIsLoadAll(cs, pkg, load);
    CandidateIsClassFileName(EntriesIn(cs), pkg, c);
  }

  /** `c` is the class name of some `.class` file among the entries `es`. */
  predicate NamesClassFile(es: seq<(RelPath, Node)>, pkg: string, c: string)
    requires forall i :: 0 <= i < |es| ==> es[i].0 != []
  {
    exists i :: 0 <= i < |es| && IsClassFile(es[i].1) && c == QualifiedName(pkg, es[i].0[..|es[i].0| - 1], es[i].1.name)
  }

  /** Conversely, every `.class` file of the listing is a candidate. */
  lemma {:induction false} ClassFileIsCandidate(es: seq<(RelPath, Node)>, pkg: string, i: nat)
    requires forall j :: 0 <= j < |es| ==> es[j].0 != []
    requires i < |es| && IsClassFile(es[i].1)
    ensures QualifiedName(pkg, es[i].0[..|es[i].0| - 1], es[i].1.name) in Candidates(es, pkg)
    decreases i
  {
    if i > 0 {
      assert es[1..][i - 1] == es[i];
      ClassFileIsCandidate(es[1..], pkg, i - 1);
    }
  }

  /** The candidates are exactly the class names of the `.class` files. */
  lemma CandidatesAreClassFiles(es: seq<(RelPath, Node)>, pkg: string, c: string)
    requires forall i :: 0 <= i < |es| ==> es[i].0 != []
    ensures c in Candidates(es, pkg) <==> NamesClassFile(es, pkg, c)
  {
    if c in Candidates(es, pkg) {
      CandidateIsClassFileName(es, pkg, c);
    }
    if NamesClassFile(es, pkg, c) {
      var i :| 0 <= i < |es| && IsClassFile(es[i].1) && c == QualifiedName(pkg, es[i].0[..|es[i].0| - 1], es[i].1.name);
      ClassFileIsCandidate(es, pkg, i);
    }
  }

  /** A successful walk of a listing returns exactly the entity classes named after its
      `.class` files: a found file whose class is an entity is never missed. */
  lemma ClassesInMembership(cs: seq<Node>, pkg: string, load: Loader, c: string)
    requires ClassesIn(cs, pkg, load).Success?
    ensures c in ClassesIn(cs, pkg, load).value <==> NamesClassFile(EntriesIn(cs), pkg, c) && load(c) == Some(true)
  {
    ClassesInIsLoadAll(cs, pkg, load);
    CandidatesAreClassFiles(EntriesIn(cs), pkg, c);
  }

  /** `c` is the class name of a `.class` file in one of the existing directories. */
  predicate InSomeDir(dirs: seq<Option<seq<Node>>>, pkg: string, c: string) {
    exists d :: 0 <= d < |dirs| && dirs[d].Some? && NamesClassFile(EntriesIn(dirs[d].value), pkg, c)
  }

  /** Over all the directories of a package, the same: exactly the entity classes named
      after the `.class` files of the existing directories. */
  lemma {:induction false} ClassesInDirsMembership(dirs: seq<Option<seq<Node>>>, pkg: string, load: Loader, c: string)
    requires ClassesInDirs(dirs, pkg, load).Success?
    ensures c in ClassesInDirs(dirs, pkg, load).value <==> InSomeDir(dirs, pkg, c) && load(c) == Some(true)
    decreases |dirs|
  {
    if dirs != [] {
      ClassesInDirsMembership(dirs[1..], pkg, load, c);
      if dirs[0].Some? {
        ClassesInMembership(dirs[0].value, pkg, load, c);
      }
      if InSomeDir(dirs, pkg, c) {
        var d :| 0 <= d < |dirs| && dirs[d].Some? && NamesClassFile(EntriesIn(dirs[d].value), pkg, c);
        if d > 0 {
          assert dirs[1..][d - 1] == dirs[d];
        }
      }
      if InSomeDir(dirs[1..], pkg, c) {
        var d :| 0 <= d < |dirs[1..]| && dirs[1..][d].Some? && NamesClassFile(EntriesIn(dirs[1..][d].value), pkg, c);
        assert dirs[1..][d] == dirs[d + 1];
      }
    }
  }

  /** `getAllEntityClasses`, when it succeeds, returns exactly the entity classes named
      after the `.class` files found under the trimmed package name. */
  lemma EntityClassesMembership(packageNameValue: string, resources: Resources, load: Loader, c: string)
    requires EntityClasses(packageNameValue, resources, load).Success?
    ensures var packageName := Trim(packageNameValue);
            c in EntityClasses(packageNameValue, resources, load).value
            <==> !IsBlank(Some(packageName)) && InSomeDir(resources(ReplaceChar(packageName, '.', '/')), packageName, c)
                 && load(c) == Some(true)
  {
    var packageName := Trim(packageNameValue);
    if !IsBlank(Some(packageName)) {
      ClassesInDirsMembership(resources(ReplaceChar(packageName, '.', '/')), packageName, load, c);
    }
  }

  /** The walk fails exactly when some `.class` file of the tree names a class the loader
      cannot find, and then it reports the first such name in walk order. */
  lemma UnknownClassAborts(cs: seq<Node>, pkg: string, load: Loader)
    ensures var names := Candidates(EntriesIn(cs), pkg);
            var r := ClassesIn(cs, pkg, load);
            (r.Failure? <==> exists i :: 0 <= i < |names| && load(names[i]).None?)
            && (r.Failure? ==> exists i :: 0 <= i < |names| && names[i] == r.error && load(names[i]).None?
                                           && forall j :: 0 <= j < i ==> load(names[j]).Some?)
  {
    ClassesInIsLoadAll(cs, pkg, load);
  }

  /** The classes of several package directories are those of each directory, in order. */
  lemma {:induction false} ClassesInDirsAppend(a: seq<Option<seq<Node>>>, b: seq<Option<seq<Node>>>, pkg: string, load: Loader)
    ensures ClassesInDirs(a + b, pkg, load) == Combine(ClassesInDirs(a, pkg, load), ClassesInDirs(b, pkg, load))
    decreases |a|
  {
    if a == [] {
      assert a + b == b;
      if ClassesInDirs(b, pkg, load).Success? {
        assert [] + ClassesInDirs(b, pkg, load).value == ClassesInDirs(b, pkg, load).value;
      }
    } else {
      assert (a + b)[1..] == a[1..] + b;
      ClassesInDirsAppend(a[1..], b, pkg, load);
      CombineAssociative(FindIn(a[0], pkg, load), ClassesInDirs(a[1..], pkg, load), ClassesInDirs(b, pkg, load));
    }
  }

  // ---------------------------------------------------------------------------
  // The source's loops

  /** `findClasses`: the listing is scanned in order, sub-directories recursively, and the
      found classes are appended to a list. */
  method FindClasses(directory: Option<seq<Node>>, packageName: string, load: Loader) returns (r: Result<seq<string>, string>)
    ensures r == FindIn(directory, packageName, load)
    decreases if directory.Some? then directory.value else []
  {
    if directory.None? {
      return Success([]);
    }
    var files := directory.value;
    var classes: seq<string> := [];
    assert files[0..] == files;
    CombineEmpty(ClassesIn(files, packageName, load));
    for i := 0 to |files|
      invariant ClassesIn(files, packageName, load) == Combine(Success(classes), ClassesIn(files[i..], packageName, load))
    {
      var file := files[i];
      assert files[i..][1..] == files[i + 1..];
      CombineAssociative(Success(classes), ClassesOf(file, packageName, load), ClassesIn(files[i + 1..], packageName, load));
      match file
      case Dir(name, sub) =>
        var found := FindClasses(Some(sub), packageName + "." + name, load);
        if found.Failure? {
          return found;
        }
        classes := classes + found.value;
      case File(name, _) =>
        if EndsWith(name, ClassSuffix) {
          var className := packageName + "." + BaseName(name);
          match load(className)
          case None =>
            return Failure(className);
          case Some(entity) =>
            if entity {
              classes := classes + [className];
            } else {
              assert classes + [] == classes;
            }
        } else {
          assert classes + [] == classes;
        }
    }
    assert classes + [] == classes;
    return Success(classes);
  }

  /** `getAllEntityClasses`: trims and checks the package name, looks up its directories
      and appends the classes found in each. */
  method AllEntityClasses(packageNameValue: string, resources: Resources, load: Loader) returns (r: Result<seq<string>, string>)
    ensures r == EntityClasses(packageNameValue, resources, load)
  {
    var packageName := Trim(packageNameValue);
    if IsBlank(Some(packageName)) {
      return Success([]);
    }
    var dirs := resources(ReplaceChar(packageName, '.', '/'));
    if |dirs| == 0 {
      return Success([]);
    }
    var classes: seq<string> := [];
    assert dirs[0..] == dirs;
    CombineEmpty(ClassesInDirs(dirs, packageName, load));
    for i := 0 to |dirs|
      invariant ClassesInDirs(dirs, packageName, load) == Combine(Success(classes), ClassesInDirs(dirs[i..], packageName, load))
    {
      assert dirs[i..][1..] == dirs[i + 1..];
      CombineAssociative(Success(classes), FindIn(dirs[i], packageName, load), ClassesInDirs(dirs[i + 1..], packageName, load));
      var found := FindClasses(dirs[i], packageName, load);
      if found.Failure? {
        return found;
      }
      classes := classes + found.value;
    }
    assert classes + [] == classes;
    return Success(classes);
  }
}
