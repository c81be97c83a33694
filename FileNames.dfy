/** Output file names derived from a Hibernate dialect identifier
    (`createFileName` and `createDropFileName`). */
module FileNames {
  import opened Wrappers
  import opened Text

  /** The marker that ends the database short name, matched case-sensitively. */
  const Marker := "Dialect"

  /** The `substring` bounds: one past the last '.', and the last "Dialect". */
  function NameStart(d: string): nat {
    LastIndexOfChar(d, '.') + 1
  }

  function NameEnd(d: string): int {
    LastIndexOf(d, Marker)
  }

  /** `substring(begin, end)` throws unless `begin <= end`; `end` never exceeds the
      length, so this is the whole domain of the derivation. */
  predicate HasDbName(d: string) {
    NameStart(d) <= NameEnd(d)
  }

  /** The lower-cased text between the last '.' and the last "Dialect". */
  function DbName(d: string): (r: string)
    requires HasDbName(d)
    ensures '.' !in r
    ensures forall i :: 0 <= i < |r| ==> !('A' <= r[i] <= 'Z')
    ensures |r| == NameEnd(d) - NameStart(d)
  {
    var raw := d[NameStart(d)..NameEnd(d)];
    assert forall i :: 0 <= i < |raw| ==> raw[i] == d[NameStart(d)..][i];
    Lower(raw)
  }

  function CreateFileName(d: string, suffixCreate: string): (r: string)
    requires HasDbName(d)
    ensures EndsWith(r, suffixCreate)
  {
    DbName(d) + suffixCreate
  }

  function CreateDropFileName(d: string, suffixDrop: string): (r: string)
    requires HasDbName(d)
    ensures EndsWith(r, suffixDrop)
  {
    DbName(d) + suffixDrop
  }

  /** Both names at once, with the `StringIndexOutOfBoundsException` of `substring`
      turned into a failure that names the offending dialect. */
  function CheckedFileNames(d: string, suffixCreate: string, suffixDrop: string): (r: Result<(string, string), string>)
    ensures r.Failure? <==> !HasDbName(d)
    ensures r.Failure? ==> r.error == d
    ensures r.Success? ==> r.value == (CreateFileName(d, suffixCreate), CreateDropFileName(d, suffixDrop))
  {
    if HasDbName(d) then Success((CreateFileName(d, suffixCreate), CreateDropFileName(d, suffixDrop)))
    else Failure(d)
  }

  /** The create and drop names start with the same database name, which holds no '.',
      and differ only in the suffix. */
  lemma FileNamesShareDbName(d: string, suffixCreate: string, suffixDrop: string)
    requires HasDbName(d)
    ensures var n := |DbName(d)|;
      && CreateFileName(d, suffixCreate)[..n] == CreateDropFileName(d, suffixDrop)[..n] == DbName(d)
      && CreateFileName(d, suffixCreate)[n..] == suffixCreate
      && CreateDropFileName(d, suffixDrop)[n..] == suffixDrop
      && '.' !in CreateFileName(d, suffixCreate)[..n]
  {
  }

  /** For an identifier `p.cDialect` whose last segment `c` has no '.', the database name
      is `c` lower-cased, whatever the package `p` holds. */
  lemma {:induction false} DbNameOfQualified(p: string, c: string)
    requires '.' !in c
    ensures HasDbName(p + "." + c + Marker)
    ensures DbName(p + "." + c + Marker) == Lower(c)
  {
    var d := p + "." + c + Marker;
    var tail := c + Marker;
    assert d == p + "." + tail;
    assert '.' !in tail by {
      forall i | 0 <= i < |tail| ensures tail[i] != '.' {
        if i < |c| { assert tail[i] == c[i]; } else { assert tail[i] == Marker[i - |c|]; }
      }
    }
    var dot := LastIndexOfChar(d, '.');
    assert d[|p|] == '.';
    assert dot == |p|;
    assert d[|d| - |Marker|..] == Marker;
    assert NameEnd(d) == |d| - |Marker|;
    assert d[NameStart(d)..NameEnd(d)] == c;
  }

  /** An identifier that is just `cDialect`: no package, so the name starts at 0. */
  lemma {:induction false} DbNameOfUnqualified(c: string)
    requires '.' !in c
    ensures HasDbName(c + Marker)
    ensures DbName(c + Marker) == Lower(c)
  {
    var d := c + Marker;
    assert '.' !in d by {
      forall i | 0 <= i < |d| ensures d[i] != '.' {
        if i < |c| { assert d[i] == c[i]; } else { assert d[i] == Marker[i - |c|]; }
      }
    }
    assert d[|d| - |Marker|..] == Marker;
    assert d[NameStart(d)..NameEnd(d)] == c;
  }

  /** The plugin's default dialect. */
  const DefaultDialect: string := "org.hibernate.dialect.DerbyDialect"

  /** The default dialect gives the short name "derby". */
  lemma DefaultDialectIsDerby(d: string)
    requires d == DefaultDialect
    ensures HasDbName(d) && DbName(d) == "derby"
  {
    var p, c := "org.hibernate.dialect", "Derby";
    assert d == p + "." + c + Marker;
    DbNameOfQualified(p, c);
    assert Lower(c) == "derby";
  }

  /** The default dialect's files are "derby" followed by the suffix, as the project's
      test configuration expects ("derby-create.ddl" and "derby-drop.ddl"). */
  lemma DefaultDialectFileNames(d: string, suffixCreate: string, suffixDrop: string)
    requires d == DefaultDialect
    ensures HasDbName(d)
    ensures CreateFileName(d, suffixCreate) == "derby" + suffixCreate
    ensures CreateDropFileName(d, suffixDrop) == "derby" + suffixDrop
  {
    DefaultDialectIsDerby(d);
  }

  /** Only the case-sensitive "Dialect" counts: the package segment "dialect" does not,
      so an identifier without a "...Dialect" class name has no file name. */
  lemma LowerCaseMarkerDoesNotCount()
    ensures !HasDbName("org.hibernate.dialect.Derby")
  {
    var d := "org.hibernate.dialect.Derby";
    forall k ensures !OccursAt(d, Marker, k) {
      if 0 <= k && k + |Marker| <= |d| {
        assert d[k..k + |Marker|][0] == d[k];
        assert d[k] != 'D' || k == 22;
      }
    }
  }

  /** When the last "Dialect" lies before the last '.', `substring` fails as well. */
  lemma MarkerBeforeLastDotFails()
    ensures !HasDbName("com.acme.MyDialect.v2")
  {
    var d := "com.acme.MyDialect.v2";
    assert d[18] == '.' && '.' !in d[19..];
    assert LastIndexOfChar(d, '.') == 18;
    forall k | 11 < k ensures !OccursAt(d, Marker, k) {
      if k + |Marker| <= |d| {
        assert d[k..k + |Marker|][6] == d[k + 6];
      }
    }
  }
}
