/** The header comment written at the top of every script (`getInitialComment`): literal
    substitution of three placeholders by `StringUtils.replaceEachRepeatedly`. */
module Header {
  import opened Wrappers
  import opened Text

  /** The search list, in the order the source passes it. */
  const Tokens: seq<string> := ["${schemaVersion}", "${generatedOn}", "${application}"]

  /** Positions in the search and replacement lists. */
  const SchemaVersionIx: nat := 0
  const GeneratedOnIx: nat := 1
  const ApplicationIx: nat := 2

  /** The replacement list; `None` is a null replacement, whose token is never replaced. */
  type Values = v: seq<Option<string>> | |v| == 3 witness [None, None, None]

  /** `replaceEachRepeatedly` starts with a time-to-live equal to the search list's length. */
  const TimeToLive: int := 3

  datatype HeaderError = EndlessLoop  // the IllegalStateException of replaceEach

  lemma TokensFacts()
    ensures |Tokens| == 3
    ensures forall k :: 0 <= k < 3 ==> |Tokens[k]| > 2 && Tokens[k][0] == '$' && '$' !in Tokens[k][1..]
    ensures forall j, k :: 0 <= j < 3 && 0 <= k < 3 && j != k ==> Tokens[j][2] != Tokens[k][2]
  {
    DollarOnlyFirst(0);
    DollarOnlyFirst(1);
    DollarOnlyFirst(2);
  }

  lemma DollarOnlyFirst(k: nat)
    requires k < 3
    ensures '$' !in Tokens[k][1..]
  {
    if k == 0 {
      assert forall i :: 1 <= i < |Tokens[0]| ==> Tokens[0][i] != '$';
    } else if k == 1 {
      assert forall i :: 1 <= i < |Tokens[1]| ==> Tokens[1][i] != '$';
    } else {
      assert forall i :: 1 <= i < |Tokens[2]| ==> Tokens[2][i] != '$';
    }
  }

  /** The token with a non-null replacement that `s` starts with, the lowest index first. */
  function TokenAt(s: string, values: Values): (r: Option<nat>)
    ensures r.Some? ==> r.value < 3 && values[r.value].Some? && Tokens[r.value] <= s
    ensures r.None? ==> forall k :: 0 <= k < 3 && values[k].Some? ==> !(Tokens[k] <= s)
  {
    if values[0].Some? && Tokens[0] <= s then Some(0)
    else if values[1].Some? && Tokens[1] <= s then Some(1)
    else if values[2].Some? && Tokens[2] <= s then Some(2)
    else None
  }

  /** One pass of `replaceEach`: scanning left to right, each earliest occurrence of a
      token with a non-null replacement is replaced, and scanning resumes after it. */
  function ReplaceOnce(s: string, values: Values): string
    decreases |s|
  {
    if s == [] then []
    else match TokenAt(s, values)
      case Some(k) => TokensFacts(); values[k].value + ReplaceOnce(s[|Tokens[k]|..], values)
      case None => [s[0]] + ReplaceOnce(s[1..], values)
  }

  /** Some token with a non-null replacement occurs in `s` (`indexOf` finds it). */
  predicate HasMatch(s: string, values: Values)
    decreases |s|
  {
    s != [] && (TokenAt(s, values).Some? || HasMatch(s[1..], values))
  }

  /** A replacement is itself one of the search strings: the cycle `replaceEach` reports
      once the time-to-live is used up. */
  predicate Cycle(values: Values) {
    exists k :: 0 <= k < 3 && values[k].Some? && values[k].value in Tokens
  }

  /** `replaceEach(text, tokens, values, true, ttl)`: passes repeat while a match is found;
      a call with the time-to-live below zero fails on a cycle and otherwise returns its
      text as it is. */
  function ReplaceEachRepeatedly(text: string, values: Values, ttl: int): (r: Result<string, HeaderError>)
    requires ttl >= -1
    ensures !Cycle(values) ==> r.Success?
    decreases ttl + 1
  {
    if ttl < 0 && Cycle(values) then Failure(EndlessLoop)
    else if text == [] || ttl == -1 || !HasMatch(text, values) then Success(text)
    else ReplaceEachRepeatedly(ReplaceOnce(text, values), values, ttl - 1)
  }

  /** `getInitialComment` as a value: the rendered header (`None` for a blank template)
      and the new value of the `generatedOn` field, filled in from the clock `now` when it
      was null and the template is not blank. */
  function InitialComment(template: Option<string>, schemaVersion: Option<string>, generatedOn: Option<string>,
                          application: Option<string>, now: string): (r: (Result<Option<string>, HeaderError>, Option<string>))
    ensures IsBlank(template) ==> r == (Success(None), generatedOn)
    ensures !IsBlank(template) ==> r.1 == Some(generatedOn.GetOr(now))
    ensures r.0.Success? && r.0.value.Some? ==> !IsBlank(template)
    ensures !IsBlank(template) ==> r.0.Failure? || r.0.value.Some?
  {
    if IsBlank(template) then (Success(None), generatedOn)
    else
      var stamp := Some(generatedOn.GetOr(now));
      var values: Values := [schemaVersion, stamp, application];
      match ReplaceEachRepeatedly(template.value, values, TimeToLive)
      case Success(s) => (Success(Some(s)), stamp)
      case Failure(e) => (Failure(e), stamp)
  }

  // ---------------------------------------------------------------------------
  // A template as literal text and placeholders

  datatype Piece = Literal(text: string) | Placeholder(index: nat)

  /** Literal text holds no '$', so no placeholder can start inside it. */
  predicate WellFormed(ps: seq<Piece>) {
    forall i :: 0 <= i < |ps| ==>
      match ps[i]
      case Literal(t) => '$' !in t
      case Placeholder(k) => k < 3
  }

  /** The template text the pieces spell. */
  function Join(ps: seq<Piece>): string
    requires WellFormed(ps)
  {
    if ps == [] then []
    else (match ps[0] case Literal(t) => t case Placeholder(k) => Tokens[k]) + Join(ps[1..])
  }

  /** The intended rendering: every placeholder with a value replaced by it, everything else
      kept. */
  function Render(ps: seq<Piece>, values: Values): string
    requires WellFormed(ps)
  {
    if ps == [] then []
    else (match ps[0] case Literal(t) => t case Placeholder(k) => values[k].GetOr(Tokens[k])) + Render(ps[1..], values)
  }

  /** Values whose non-null entries hold no '$'. */
  predicate DollarFree(values: Values) {
    forall k :: 0 <= k < 3 && values[k].Some? ==> '$' !in values[k].value
  }

  // ---------------------------------------------------------------------------
  // One pass

  lemma {:induction false} NoTokenBeforeDollar(s: string, values: Values)
    requires s != [] && s[0] != '$'
    ensures TokenAt(s, values).None?
  {
    TokensFacts();
    forall k | 0 <= k < 3 ensures !(Tokens[k] <= s) {
      assert Tokens[k][0] == '$';
    }
  }

  /** Text without '$' passes through a pass unchanged and does not disturb what follows. */
  lemma {:induction false} ReplaceOnceSkipsPlainText(x: string, y: string, values: Values)
    requires '$' !in x
    ensures ReplaceOnce(x + y, values) == x + ReplaceOnce(y, values)
    ensures HasMatch(x + y, values) == HasMatch(y, values)
    decreases |x|
  {
    if x != [] {
      NoTokenBeforeDollar(x + y, values);
      assert (x + y)[1..] == x[1..] + y;
      ReplaceOnceSkipsPlainText(x[1..], y, values);
    } else {
      assert x + y == y;
    }
  }

  /** A placeholder followed by anything: replaced by its value, or kept when the value is
      null. */
  lemma {:induction false} ReplaceOnceAtToken(k: nat, y: string, values: Values)
    requires k < 3
    ensures ReplaceOnce(Tokens[k] + y, values) == values[k].GetOr(Tokens[k]) + ReplaceOnce(y, values)
    ensures HasMatch(Tokens[k] + y, values) == (values[k].Some? || HasMatch(y, values))
  {
    if values[k].Some? {
      ReplaceOnceAtValuedToken(k, y, values);
    } else {
      ReplaceOnceAtNullToken(k, y, values);
    }
  }

  /** A placeholder with a value is replaced by it. */
  lemma ReplaceOnceAtValuedToken(k: nat, y: string, values: Values)
    requires k < 3 && values[k].Some?
    ensures ReplaceOnce(Tokens[k] + y, values) == values[k].value + ReplaceOnce(y, values)
    ensures HasMatch(Tokens[k] + y, values)
  {
    var s := Tokens[k] + y;
    OnlyOneTokenStarts(k, s);
    assert TokenAt(s, values) == Some(k);
    assert s[|Tokens[k]|..] == y;
  }

  /** A placeholder whose value is null is copied as plain text. */
  lemma ReplaceOnceAtNullToken(k: nat, y: string, values: Values)
    requires k < 3 && values[k].None?
    ensures ReplaceOnce(Tokens[k] + y, values) == Tokens[k] + ReplaceOnce(y, values)
    ensures HasMatch(Tokens[k] + y, values) == HasMatch(y, values)
  {
    TokensFacts();
    OnlyOneTokenStarts(k, Tokens[k] + y);
    assert TokenAt(Tokens[k] + y, values).None?;
    ReplaceOnceCopiesUnmatchedHead(Tokens[k], y, values);
  }

  /** Text where no match starts, and whose rest holds no '$', is copied as it is. */
  lemma ReplaceOnceCopiesUnmatchedHead(t: string, y: string, values: Values)
    requires t != [] && '$' !in t[1..] && TokenAt(t + y, values).None?
    ensures ReplaceOnce(t + y, values) == t + ReplaceOnce(y, values)
    ensures HasMatch(t + y, values) == HasMatch(y, values)
  {
    var s := t + y;
    assert s[1..] == t[1..] + y;
    ReplaceOnceSkipsPlainText(t[1..], y, values);
    assert [t[0]] + t[1..] == t;
  }

  /** No two tokens are prefixes of the same text. */
  lemma OnlyOneTokenStarts(k: nat, s: string)
    requires k < 3 && Tokens[k] <= s
    ensures forall j :: 0 <= j < 3 && j != k ==> !(Tokens[j] <= s)
  {
    TokensFacts();
    forall j | 0 <= j < 3 && j != k ensures !(Tokens[j] <= s) {
      assert Tokens[j][2] != s[2];
    }
  }

  /** Substitution is complete and literal: one pass over a well-formed template replaces
      every placeholder that has a value and leaves all other text as it is. */
  lemma {:induction false} ReplaceOnceRenders(ps: seq<Piece>, values: Values)
    requires WellFormed(ps)
    ensures ReplaceOnce(Join(ps), values) == Render(ps, values)
  {
    if ps != [] {
      assert WellFormed(ps[1..]) by {
        forall i | 0 <= i < |ps| - 1 ensures ps[1..][i] == ps[i + 1] {}
      }
      ReplaceOnceRenders(ps[1..], values);
      match ps[0]
      case Literal(t) =>
        assert '$' !in t;
        ReplaceOnceSkipsPlainText(t, Join(ps[1..]), values);
      case Placeholder(k) =>
        ReplaceOnceAtToken(k, Join(ps[1..]), values);
    }
  }

  /** Rendering with '$'-free values leaves nothing a further pass would replace. */
  lemma {:induction false} RenderHasNoMatch(ps: seq<Piece>, values: Values)
    requires WellFormed(ps) && DollarFree(values)
    ensures !HasMatch(Render(ps, values), values)
  {
    if ps != [] {
      assert WellFormed(ps[1..]) by {
        forall i | 0 <= i < |ps| - 1 ensures ps[1..][i] == ps[i + 1] {}
      }
      RenderHasNoMatch(ps[1..], values);
      var rest := Render(ps[1..], values);
      match ps[0]
      case Literal(t) =>
        ReplaceOnceSkipsPlainText(t, rest, values);
      case Placeholder(k) =>
        if values[k].Some? {
          ReplaceOnceSkipsPlainText(values[k].value, rest, values);
        } else {
          ReplaceOnceAtToken(k, rest, values);
        }
    }
  }

  /** A text with no match is its own pass. */
  lemma {:induction false} ReplaceOnceWithoutMatch(s: string, values: Values)
    requires !HasMatch(s, values)
    ensures ReplaceOnce(s, values) == s
    decreases |s|
  {
    if s != [] {
      ReplaceOnceWithoutMatch(s[1..], values);
      assert [s[0]] + s[1..] == s;
    }
  }

  /** With literal text and values free of '$', the repeated replacement stops after one
      pass and yields the intended rendering. */
  lemma {:induction false} OnePassSuffices(ps: seq<Piece>, values: Values)
    requires WellFormed(ps) && DollarFree(values)
    ensures ReplaceEachRepeatedly(Join(ps), values, TimeToLive) == Success(Render(ps, values))
  {
    ReplaceOnceRenders(ps, values);
    RenderHasNoMatch(ps, values);
    if !HasMatch(Join(ps), values) {
      ReplaceOnceWithoutMatch(Join(ps), values);
    }
  }

  /** A template that is not blank, whose literal text and values hold no '$', becomes
      its rendering with the stamp in place of `${generatedOn}`: the old `generatedOn`
      when there was one, otherwise the clock, which is also the field's new value. */
  lemma InitialCommentRenders(ps: seq<Piece>, schemaVersion: Option<string>, generatedOn: Option<string>,
                              application: Option<string>, now: string)
    requires WellFormed(ps) && !IsBlank(Some(Join(ps)))
    requires DollarFree([schemaVersion, Some(generatedOn.GetOr(now)), application])
    ensures var stamp := Some(generatedOn.GetOr(now));
            InitialComment(Some(Join(ps)), schemaVersion, generatedOn, application, now)
            == (Success(Some(Render(ps, [schemaVersion, stamp, application]))), stamp)
  {
    OnePassSuffices(ps, [schemaVersion, Some(generatedOn.GetOr(now)), application]);
  }

  // ---------------------------------------------------------------------------
  // Matches are occurrences

  /** `HasMatch` holds exactly when some token with a non-null replacement occurs. */
  lemma {:induction false} HasMatchIffOccurs(s: string, values: Values)
    ensures HasMatch(s, values) <==>
            exists k, i :: 0 <= k < 3 && values[k].Some? && OccursAt(s, Tokens[k], i)
    decreases |s|
  {
    if s != [] {
      HasMatchIffOccurs(s[1..], values);
      if TokenAt(s, values).Some? {
        var k := TokenAt(s, values).value;
        assert OccursAt(s, Tokens[k], 0);
      } else {
        forall k, i | 0 <= k < 3 && values[k].Some? && OccursAt(s, Tokens[k], i)
          ensures OccursAt(s[1..], Tokens[k], i - 1)
        {
          assert s[1..][i - 1..i - 1 + |Tokens[k]|] == s[i..i + |Tokens[k]|];
        }
        forall k, i | 0 <= k < 3 && values[k].Some? && OccursAt(s[1..], Tokens[k], i)
          ensures OccursAt(s, Tokens[k], i + 1)
        {
          assert s[1..][i..i + |Tokens[k]|] == s[i + 1..i + 1 + |Tokens[k]|];
        }
      }
    }
  }

  /** A template in which no placeholder occurs is returned as it is. */
  lemma TemplateWithoutTokensUnchanged(t: string, values: Values)
    requires forall k, i :: 0 <= k < 3 ==> !OccursAt(t, Tokens[k], i)
    ensures ReplaceEachRepeatedly(t, values, TimeToLive) == Success(t)
  {
    HasMatchIffOccurs(t, values);
  }

  /** A position where no token with a value starts is copied. */
  lemma ReplaceOnceCopiesUnmatched(t: string, values: Values)
    requires t != [] && TokenAt(t, values).None?
    ensures ReplaceOnce(t, values) == [t[0]] + ReplaceOnce(t[1..], values)
  {
  }

  /** A pass that changes its text found a match. */
  lemma ChangedTextHadMatch(t: string, values: Values)
    requires ReplaceOnce(t, values) != t
    ensures HasMatch(t, values)
  {
    if !HasMatch(t, values) {
      ReplaceOnceWithoutMatch(t, values);
    }
  }

  // ---------------------------------------------------------------------------
  // Concrete behaviour

  /** The shape of the project's comment template: three placeholders separated by
      '$'-free text, each with a '$'-free value, render in one pass. */
  lemma ThreePlaceholderTemplate(a: string, b: string, c: string, values: Values)
    requires '$' !in a && '$' !in b && '$' !in c && DollarFree(values)
    requires values[SchemaVersionIx].Some? && values[GeneratedOnIx].Some? && values[ApplicationIx].Some?
    ensures ReplaceEachRepeatedly(a + (Tokens[SchemaVersionIx] + (b + (Tokens[ApplicationIx] + (c + Tokens[GeneratedOnIx])))),
                                  values, TimeToLive)
         == Success(a + (values[SchemaVersionIx].value + (b + (values[ApplicationIx].value + (c + values[GeneratedOnIx].value)))))
  {
    var t := Tokens[GeneratedOnIx];
    assert t + [] == t;
    ReplaceOnceAtToken(GeneratedOnIx, [], values);
    ReplaceOnceSkipsPlainText(c, t, values);
    ReplaceOnceAtToken(ApplicationIx, c + t, values);
    ReplaceOnceSkipsPlainText(b, Tokens[ApplicationIx] + (c + t), values);
    ReplaceOnceAtToken(SchemaVersionIx, b + (Tokens[ApplicationIx] + (c + t)), values);
    ReplaceOnceSkipsPlainText(a, Tokens[SchemaVersionIx] + (b + (Tokens[ApplicationIx] + (c + t))), values);
    var v0, v1, v2 := values[SchemaVersionIx].value, values[GeneratedOnIx].value, values[ApplicationIx].value;
    assert v1 + [] == v1;
    ReplaceOnceSkipsPlainText(v1, [], values);
    ReplaceOnceSkipsPlainText(c, v1, values);
    ReplaceOnceSkipsPlainText(v2, c + v1, values);
    ReplaceOnceSkipsPlainText(b, v2 + (c + v1), values);
    ReplaceOnceSkipsPlainText(v0, b + (v2 + (c + v1)), values);
    ReplaceOnceSkipsPlainText(a, v0 + (b + (v2 + (c + v1))), values);
  }

  lemma CommentTestTextIsDollarFree(a: string, b: string, c: string, values: Values)
    requires a == "Script version: " && b == ", Application: " && c == ", Date: "
    requires values == [Some("version-01"), Some("01.12.2022"), Some("application-01")]
    ensures '$' !in a && '$' !in b && '$' !in c && DollarFree(values)
  {
    assert forall i :: 0 <= i < |a| ==> a[i] != '$';
    assert forall i :: 0 <= i < |b| ==> b[i] != '$';
    assert forall i :: 0 <= i < |c| ==> c[i] != '$';
    assert forall i :: 0 <= i < |values[0].value| ==> values[0].value[i] != '$';
    assert forall i :: 0 <= i < |values[1].value| ==> values[1].value[i] != '$';
    assert forall i :: 0 <= i < |values[2].value| ==> values[2].value[i] != '$';
  }

  /** The comment test of the project: each placeholder is replaced in place and the
      supplied date is kept (the strings are written split at the placeholders). */
  lemma CommentTestRenders(template: string, now: string)
    requires template == "Script version: " + ("${schemaVersion}" + (", Application: " + ("${application}" + (", Date: " + "${generatedOn}"))))
    ensures InitialComment(Some(template), Some("version-01"), Some("01.12.2022"), Some("application-01"), now)
            == (Success(Some("Script version: " + ("version-01" + (", Application: " + ("application-01" + (", Date: " + "01.12.2022")))))),
                Some("01.12.2022"))
  {
    var values: Values := [Some("version-01"), Some("01.12.2022"), Some("application-01")];
    CommentTestTextIsDollarFree("Script version: ", ", Application: ", ", Date: ", values);
    ThreePlaceholderTemplate("Script version: ", ", Application: ", ", Date: ", values);
    assert template[0] == 'S';
  }

  lemma StraddlingTemplateSpell(template: string)
    requires template == "${schema${application}sion}"
    ensures template == "$" + ("{schema" + (Tokens[ApplicationIx] + "sion}"))
    ensures "$" + ("{schema" + ("Ver" + "sion}")) == Tokens[SchemaVersionIx]
    ensures |template| != |Tokens[SchemaVersionIx]|
  {
  }

  /** One pass over the straddling template leaves the schema-version token behind. */
  lemma StraddlingFirstPass(template: string, values: Values)
    requires template == "$" + ("{schema" + (Tokens[ApplicationIx] + "sion}"))
    requires values == [Some("1.0"), Some("now"), Some("Ver")]
    ensures ReplaceOnce(template, values) == "$" + ("{schema" + ("Ver" + "sion}"))
  {
    TokensFacts();
    assert TokenAt(template, values).None? by {
      assert Tokens[SchemaVersionIx][8] != template[8];
      assert Tokens[GeneratedOnIx][2] != template[2];
      assert Tokens[ApplicationIx][2] != template[2];
    }
    ReplaceOnceCopiesUnmatched(template, values);
    assert template[1..] == "{schema" + (Tokens[ApplicationIx] + "sion}");
    ReplaceOnceSkipsPlainText("sion}", [], values);
    assert "sion}" + [] == "sion}";
    ReplaceOnceAtToken(ApplicationIx, "sion}", values);
    ReplaceOnceSkipsPlainText("{schema", Tokens[ApplicationIx] + "sion}", values);
  }

  /** A value that completes a token split around its placeholder: one pass leaves a new
      token behind and only the second pass replaces it. So values free of placeholders do
      not alone make one pass enough; literal text free of '$' is needed too. */
  lemma StraddlingTokenNeedsSecondPass(template: string, values: Values)
    requires template == "${schema${application}sion}"
    requires values == [Some("1.0"), Some("now"), Some("Ver")]
    ensures ReplaceOnce(template, values) == Tokens[SchemaVersionIx]
    ensures ReplaceEachRepeatedly(template, values, TimeToLive) == Success("1.0")
  {
    StraddlingTemplateSpell(template);
    StraddlingFirstPass(template, values);
    ChangedTextHadMatch(template, values);
    ReplaceOnceAtToken(SchemaVersionIx, [], values);
    assert Tokens[SchemaVersionIx] + [] == Tokens[SchemaVersionIx];
    ReplaceOnceSkipsPlainText("1.0", [], values);
    assert "1.0" + [] == "1.0";
  }

  /** An application name equal to its own placeholder matches on every pass; once the
      time-to-live is used up the cycle is reported. */
  lemma SelfReplacingValueLoops(values: Values)
    requires values == [Some("1.0"), Some("now"), Some(Tokens[ApplicationIx])]
    ensures ReplaceEachRepeatedly(Tokens[ApplicationIx], values, TimeToLive) == Failure(EndlessLoop)
  {
    ReplaceOnceAtToken(ApplicationIx, [], values);
    assert Tokens[ApplicationIx] + [] == Tokens[ApplicationIx];
    assert Cycle(values) by { assert values[2].value in Tokens; }
  }
}
