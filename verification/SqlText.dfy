/** SQL text built from user strings, and the readers of section 5.3 and 8.5 of ISO/IEC 9075-2 that must get them back. */
module SqlText {
  import opened Text

  // ---------------------------------------------------------------------------------------------
  // The printers

  function SqlString(s: string): string {
    "'" + Replace(s, '\'', "''") + "'"
  }

  function ChainedEscape(s: string): string {
    Replace(Replace(Replace(s, '\\', "\\\\"), '%', "\\%"), '_', "\\_")
  }

  function SqlContains(s: string): string {
    var esc := Replace(ChainedEscape(s), '\'', "''");
    "'%" + esc + "%'"
  }

  function SqlIeq(s: string): string {
    var esc := Replace(ChainedEscape(s), '\'', "''");
    "'" + esc + "'"
  }

  function EnvScopeWhere(col: string, scopes: seq<string>): Option<string> {
    if scopes == [] then None
    else Some(col + " IN (" + Join(seq(|scopes|, i requires 0 <= i < |scopes| => SqlString(scopes[i])), ", ") + ")")
  }

  // ---------------------------------------------------------------------------------------------
  // The literal reader

  datatype Literal = Literal(content: string, rest: string)

  function Prepend(c: char, l: Option<Literal>): Option<Literal> {
    match l
    case None => None
    case Some(Literal(content, rest)) => Some(Literal([c] + content, rest))
  }

  /** Read up to the closing quote; a doubled quote stands for one quote. */
  function LexBody(text: string): Option<Literal> {
    if text == "" then None
    else if text[0] != '\'' then Prepend(text[0], LexBody(text[1..]))
    else if |text| > 1 && text[1] == '\'' then Prepend('\'', LexBody(text[2..]))
    else Some(Literal("", text[1..]))
  }

  function LexLiteral(text: string): Option<Literal> {
    if text == "" || text[0] != '\'' then None else LexBody(text[1..])
  }

  predicate EndsLiteral(rest: string) {
    rest == "" || rest[0] != '\''
  }

  lemma {:induction false} LexBodyUndoesDoubling(s: string, rest: string)
    requires EndsLiteral(rest)
    ensures LexBody(Replace(s, '\'', "''") + ("'" + rest)) == Some(Literal(s, rest))
  {
    var tail := "'" + rest;
    if s == "" {
      assert Replace(s, '\'', "''") + tail == tail;
      assert tail[1..] == rest;
    } else {
      var head := if s[0] == '\'' then "''" else [s[0]];
      var more := Replace(s[1..], '\'', "''");
      LexBodyUndoesDoubling(s[1..], rest);
      assert (head + more) + tail == head + (more + tail);
      assert (head + (more + tail))[|head|..] == more + tail;
      assert [s[0]] + s[1..] == s;
    }
  }

  /** A quoted string reads back as itself, and its literal ends exactly at the final quote. */
  lemma SqlStringReadsBack(s: string, rest: string)
    requires EndsLiteral(rest)
    ensures LexLiteral(SqlString(s) + rest) == Some(Literal(s, rest))
  {
    var body := Replace(s, '\'', "''");
    LexBodyUndoesDoubling(s, rest);
    assert SqlString(s) + rest == ['\''] + (body + ("'" + rest));
    assert (SqlString(s) + rest)[1..] == body + ("'" + rest);
  }

  // ---------------------------------------------------------------------------------------------
  // The pattern reader: LIKE ... ESCAPE '\', comparing characters up to a case fold

  predicate IsMeta(c: char) {
    c == '\\' || c == '%' || c == '_'
  }

  /** Every escape character must precede a wildcard or an escape character. */
  predicate WellFormedPattern(p: string) {
    if p == "" then true
    else if p[0] == '\\' then |p| > 1 && IsMeta(p[1]) && WellFormedPattern(p[2..])
    else WellFormedPattern(p[1..])
  }

  predicate Like(t: string, p: string, fold: char -> char)
    decreases |p|, |t|
  {
    if p == "" then t == ""
    else if p[0] == '%' then Like(t, p[1..], fold) || (t != "" && Like(t[1..], p, fold))
    else if t == "" then false
    else if p[0] == '_' then Like(t[1..], p[1..], fold)
    else if p[0] == '\\' then |p| > 1 && fold(t[0]) == fold(p[1]) && Like(t[1..], p[2..], fold)
    else fold(t[0]) == fold(p[0]) && Like(t[1..], p[1..], fold)
  }

  /** None is the data exception raised for a malformed pattern. */
  function EvaluateLike(t: string, p: string, fold: char -> char): Option<bool> {
    if WellFormedPattern(p) then Some(Like(t, p, fold)) else None
  }

  predicate SameText(a: string, b: string, fold: char -> char) {
    |a| == |b| && forall i :: 0 <= i < |a| ==> fold(a[i]) == fold(b[i])
  }

  predicate OccursAt(t: string, i: nat, s: string, fold: char -> char) {
    i + |s| <= |t| && SameText(t[i..i + |s|], s, fold)
  }

  predicate ContainsText(t: string, s: string, fold: char -> char) {
    exists i :: 0 <= i <= |t| && OccursAt(t, i, s, fold)
  }

  // ---------------------------------------------------------------------------------------------
  // Escaping means what was asked

  function EscapeChar(c: char): string {
    if IsMeta(c) then ['\\', c] else [c]
  }

  /** The one-pass escape that the chained replacements amount to. */
  function EscapePattern(s: string): string {
    if s == "" then "" else EscapeChar(s[0]) + EscapePattern(s[1..])
  }

  lemma ChainedEscapeOfChar(c: char)
    ensures ChainedEscape([c]) == EscapeChar(c)
  {
    assert Replace([c], '\\', "\\\\") == if c == '\\' then "\\\\" else [c];
    assert Replace(['\\', c], '%', "\\%") == "\\" + Replace([c], '%', "\\%");
    assert Replace(['\\', c], '_', "\\_") == "\\" + Replace([c], '_', "\\_");
  }

  /** Three chained replacements escape each character exactly once. */
  lemma {:induction false} ChainedEscapeIsOnePass(s: string)
    ensures ChainedEscape(s) == EscapePattern(s)
  {
    if s != "" {
      var c, r := [s[0]], s[1..];
      assert s == c + r;
      ReplaceConcat(c, r, '\\', "\\\\");
      ReplaceConcat(Replace(c, '\\', "\\\\"), Replace(r, '\\', "\\\\"), '%', "\\%");
      ReplaceConcat(Replace(Replace(c, '\\', "\\\\"), '%', "\\%"), Replace(Replace(r, '\\', "\\\\"), '%', "\\%"), '_', "\\_");
      ChainedEscapeOfChar(s[0]);
      ChainedEscapeIsOnePass(r);
    }
  }

  lemma {:induction false} EscapeIsWellFormed(s: string, q: string)
    requires WellFormedPattern(q)
    ensures WellFormedPattern(EscapePattern(s) + q)
  {
    if s == "" {
      assert EscapePattern(s) + q == q;
    } else {
      var e, more := EscapeChar(s[0]), EscapePattern(s[1..]);
      EscapeIsWellFormed(s[1..], q);
      assert e + more + q == e + (more + q);
      assert (e + (more + q))[|e|..] == more + q;
    }
  }

  /** An escaped string in front of a pattern consumes exactly itself. */
  lemma {:induction false} LikeEscapedPrefix(t: string, s: string, q: string, fold: char -> char)
    ensures Like(t, EscapePattern(s) + q, fold) <==>
            |s| <= |t| && SameText(t[..|s|], s, fold) && Like(t[|s|..], q, fold)
  {
    if s == "" {
      assert EscapePattern(s) + q == q && t[0..] == t;
    } else {
      var e, more := EscapeChar(s[0]), EscapePattern(s[1..]);
      assert e + more + q == e + (more + q);
      assert (e + (more + q))[|e|..] == more + q;
      if t != "" {
        LikeEscapedPrefix(t[1..], s[1..], q, fold);
        assert Like(t, e + (more + q), fold) <==> fold(t[0]) == fold(s[0]) && Like(t[1..], more + q, fold);
        if |s| <= |t| {
          assert t[1..][|s[1..]|..] == t[|s|..];
          SameTextUnfold(t[..|s|], s, fold);
          assert t[..|s|][1..] == t[1..][..|s[1..]|];
        }
      }
    }
  }

  lemma SameTextUnfold(a: string, b: string, fold: char -> char)
    requires |a| == |b| > 0
    ensures SameText(a, b, fold) <==> fold(a[0]) == fold(b[0]) && SameText(a[1..], b[1..], fold)
  {
    if fold(a[0]) == fold(b[0]) && SameText(a[1..], b[1..], fold) {
      forall i | 0 <= i < |a| ensures fold(a[i]) == fold(b[i]) {
        if i > 0 { assert fold(a[1..][i - 1]) == fold(b[1..][i - 1]); }
      }
    }
  }

  lemma {:induction false} PercentMatchesAnything(t: string, fold: char -> char)
    ensures Like(t, "%", fold)
  {
    if t != "" { PercentMatchesAnything(t[1..], fold); }
  }

  lemma {:induction false} PercentSkips(t: string, q: string, fold: char -> char)
    ensures Like(t, "%" + q, fold) <==> exists i :: 0 <= i <= |t| && Like(t[i..], q, fold)
  {
    assert ("%" + q)[1..] == q;
    assert t[0..] == t;
    if t != "" {
      PercentSkips(t[1..], q, fold);
      forall i | 0 <= i <= |t| - 1 ensures t[1..][i..] == t[i + 1..] {}
      if i :| 0 <= i <= |t| && Like(t[i..], q, fold) {
        if i > 0 { assert Like(t[1..][i - 1..], q, fold); }
      }
    }
  }

  /** The content of the literal a printer produced, evaluated as a pattern. */
  function EvaluateLiteral(t: string, text: string, fold: char -> char): Option<bool> {
    match LexLiteral(text)
    case Some(Literal(pattern, "")) => EvaluateLike(t, pattern, fold)
    case _ => None
  }

  lemma QuotesDoubledInside(before: string, p: string, after: string)
    requires '\'' !in before && '\'' !in after
    ensures Replace(before + p + after, '\'', "''") == before + Replace(p, '\'', "''") + after
  {
    ReplaceConcat(before + p, after, '\'', "''");
    ReplaceConcat(before, p, '\'', "''");
    NothingToReplace(before, '\'', "''");
    NothingToReplace(after, '\'', "''");
  }

  lemma EscapedThenAnything(t: string, i: nat, s: string, fold: char -> char)
    requires i <= |t|
    ensures Like(t[i..], EscapePattern(s) + "%", fold) <==> OccursAt(t, i, s, fold)
  {
    LikeEscapedPrefix(t[i..], s, "%", fold);
    if |s| <= |t| - i {
      PercentMatchesAnything(t[i..][|s|..], fold);
      assert t[i..][..|s|] == t[i..i + |s|];
    }
  }

  lemma LikeContains(t: string, s: string, fold: char -> char)
    ensures Like(t, "%" + (EscapePattern(s) + "%"), fold) <==> ContainsText(t, s, fold)
  {
    hide Like, OccursAt;
    PercentSkips(t, EscapePattern(s) + "%", fold);
    forall i | 0 <= i <= |t|
      ensures Like(t[i..], EscapePattern(s) + "%", fold) <==> OccursAt(t, i, s, fold)
    {
      EscapedThenAnything(t, i, s, fold);
    }
  }

  lemma PercentPatternIsWellFormed(q: string)
    requires WellFormedPattern(q)
    ensures WellFormedPattern("%" + q)
  {
    assert ("%" + q)[1..] == q;
  }

  lemma LonePercent()
    ensures WellFormedPattern("%")
  {
  }

  /** The printed contains-pattern matches exactly the texts that contain the string. */
  lemma SqlContainsMeansContains(s: string, t: string, fold: char -> char)
    ensures EvaluateLiteral(t, SqlContains(s), fold) == Some(ContainsText(t, s, fold))
  {
    hide Like, ContainsText, LexLiteral, Replace, WellFormedPattern;
    var p := EscapePattern(s);
    ChainedEscapeIsOnePass(s);
    QuotesDoubledInside("%", p, "%");
    SqlStringReadsBack("%" + p + "%", "");
    assert SqlContains(s) == SqlString("%" + p + "%") + "";
    assert "%" + p + "%" == "%" + (p + "%");
    LonePercent();
    EscapeIsWellFormed(s, "%");
    PercentPatternIsWellFormed(p + "%");
    LikeContains(t, s, fold);
  }

  /** The printed equality pattern matches exactly the string, up to the fold. */
  lemma SqlIeqMeansEqual(s: string, t: string, fold: char -> char)
    ensures EvaluateLiteral(t, SqlIeq(s), fold) == Some(SameText(t, s, fold))
  {
    ChainedEscapeIsOnePass(s);
    SqlStringReadsBack(EscapePattern(s), "");
    assert SqlIeq(s) == SqlString(EscapePattern(s)) + "";
    assert EscapePattern(s) == EscapePattern(s) + "";
    EscapeIsWellFormed(s, "");
    LikeEscapedPrefix(t, s, "", fold);
    if |s| == |t| { assert t[..|s|] == t; }
  }

  // ---------------------------------------------------------------------------------------------
  // Whole predicates: user strings never change the statement around them

  datatype Scan = Scan(skeleton: string, literals: seq<string>)

  /** Separate a statement into its text, with '?' for each literal, and the literals' contents. */
  function ScanStatement(text: string): Option<Scan>
    decreases |text|
  {
    if text == "" then Some(Scan("", []))
    else if text[0] != '\'' then
      match ScanStatement(text[1..])
      case None => None
      case Some(Scan(skeleton, literals)) => Some(Scan([text[0]] + skeleton, literals))
    else
      match LexBody(text[1..])
      case None => None
      case Some(Literal(content, rest)) =>
        LexBodyShrinks(text[1..]);
        match ScanStatement(rest)
        case None => None
        case Some(Scan(skeleton, literals)) => Some(Scan("?" + skeleton, [content] + literals))
  }

  lemma {:induction false} LexBodyShrinks(text: string)
    ensures LexBody(text).Some? ==> |LexBody(text).value.rest| < |text|
  {
    if text != "" && text[0] != '\'' {
      LexBodyShrinks(text[1..]);
    } else if |text| > 1 && text[1] == '\'' {
      LexBodyShrinks(text[2..]);
    }
  }

  lemma {:induction false} ScanPlain(p: string, text: string)
    requires '\'' !in p && ScanStatement(text).Some?
    ensures ScanStatement(p + text) ==
            Some(Scan(p + ScanStatement(text).value.skeleton, ScanStatement(text).value.literals))
  {
    var skeleton := ScanStatement(text).value.skeleton;
    if p == "" {
      assert p + text == text && p + skeleton == skeleton;
    } else {
      assert (p + text)[1..] == p[1..] + text;
      ScanPlain(p[1..], text);
      assert [p[0]] + (p[1..] + skeleton) == p + skeleton;
    }
  }

  lemma ScanLiteral(s: string, text: string)
    requires EndsLiteral(text) && ScanStatement(text).Some?
    ensures ScanStatement(SqlString(s) + text) ==
            Some(Scan("?" + ScanStatement(text).value.skeleton, [s] + ScanStatement(text).value.literals))
  {
    SqlStringReadsBack(s, text);
  }

  function Placeholders(n: nat): string {
    Join(seq(n, i => "?"), ", ")
  }

  lemma {:induction false} ScanJoined(quoted: seq<string>, contents: seq<string>, text: string)
    requires |quoted| == |contents| > 0
    requires forall i :: 0 <= i < |quoted| ==> quoted[i] == SqlString(contents[i])
    requires EndsLiteral(text) && ScanStatement(text).Some?
    ensures ScanStatement(Join(quoted, ", ") + text) ==
            Some(Scan(Placeholders(|quoted|) + ScanStatement(text).value.skeleton,
                      contents + ScanStatement(text).value.literals))
  {
    hide SqlString, ScanStatement;
    if |quoted| == 1 {
      ScanLiteral(contents[0], text);
      assert [contents[0]] == contents;
    } else {
      var more := Join(quoted[1..], ", ") + text;
      ScanJoined(quoted[1..], contents[1..], text);
      ScanPlain(", ", more);
      ScanLiteral(contents[0], ", " + more);
      var tail := ScanStatement(text).value;
      assert Join(quoted, ", ") + text == SqlString(contents[0]) + (", " + more);
      PlaceholdersUnfold(|quoted|, tail.skeleton);
      assert [contents[0]] + (contents[1..] + tail.literals) == contents + tail.literals;
    }
  }

  lemma PlaceholdersUnfold(n: nat, rest: string)
    requires n > 1
    ensures "?" + (", " + (Placeholders(n - 1) + rest)) == Placeholders(n) + rest
  {
    assert seq(n, i => "?")[1..] == seq(n - 1, i => "?");
    assert Placeholders(n) == "?" + ", " + Placeholders(n - 1);
  }

  /** The scope predicate lists exactly the scopes, whatever characters they contain. */
  lemma EnvScopeWhereListsScopes(col: string, scopes: seq<string>)
    requires '\'' !in col
    ensures EnvScopeWhere(col, scopes).None? <==> scopes == []
    ensures scopes != [] ==>
              ScanStatement(EnvScopeWhere(col, scopes).value) == Some(Scan(col + " IN (" + Placeholders(|scopes|) + ")", scopes))
  {
    if scopes != [] {
      var quoted := seq(|scopes|, i requires 0 <= i < |scopes| => SqlString(scopes[i]));
      ScanPlain(")", "");
      assert ")" + "" == ")";
      ScanJoined(quoted, scopes, ")");
      ScanPlain(col + " IN (", Join(quoted, ", ") + ")");
      assert scopes + [] == scopes;
      assert EnvScopeWhere(col, scopes).value == (col + " IN (") + (Join(quoted, ", ") + ")");
      assert (col + " IN (") + (Placeholders(|scopes|) + ")") == col + " IN (" + Placeholders(|scopes|) + ")";
    }
  }

  // ---------------------------------------------------------------------------------------------
  // Click-to-filter predicates

  datatype Filters = Wheres(wheres: seq<string>) | InvalidAttr(raw: string) | InvalidAttrNot(raw: string)

  datatype KeyValue = KeyValue(key: string, value: string)

  function SplitOnce(s: string, at: char): (r: Option<KeyValue>)
    ensures r.None? <==> at !in s
    ensures r.Some? ==> at !in r.value.key && s == r.value.key + [at] + r.value.value
  {
    if s == "" then None
    else if s[0] == at then Some(KeyValue("", s[1..]))
    else
      match SplitOnce(s[1..], at)
      case None => None
      case Some(KeyValue(k, v)) => Some(KeyValue([s[0]] + k, v))
  }

  /** A filter parameter names a non-empty key before its first '='; the value may be empty. */
  function AttrKv(s: string): (r: Option<KeyValue>)
    ensures r.None? <==> '=' !in s || s[0] == '='
    ensures r.Some? ==> r.value.key != "" && '=' !in r.value.key && s == r.value.key + "=" + r.value.value
  {
    match SplitOnce(s, '=')
    case None => None
    case Some(kv) => if kv.key == "" then None else Some(kv)
  }

  /** The two filter predicates with the places for the key and the value left open. */
  function AttrShape(k: string, v: string, a: string, b: string): string {
    "(" + a + "[" + k + ("] = " + v + (" OR " + b + "[" + k + ("] = " + v + ")")))
  }

  function AttrNotShape(k: string, v: string, a: string, b: string): string {
    "NOT (COALESCE(" + a + "[" + k + ("] = " + v + (", false) OR COALESCE(" + b + "[" + k + ("] = " + v + ", false))")))
  }

  function AttrPredicate(kv: KeyValue, a: string, b: string): string {
    AttrShape(SqlString(kv.key), SqlString(kv.value), a, b)
  }

  function AttrNotPredicate(kv: KeyValue, a: string, b: string): string {
    AttrNotShape(SqlString(kv.key), SqlString(kv.value), a, b)
  }

  /** The two optional filters, an empty parameter counting as absent. */
  method AttrWheres(attr: Option<string>, attrNot: Option<string>, a: string, b: string) returns (r: Filters)
    ensures r.InvalidAttr? <==> attr.Some? && attr.value != "" && AttrKv(attr.value).None?
    ensures r.InvalidAttrNot? <==>
            !r.InvalidAttr? && attrNot.Some? && attrNot.value != "" && AttrKv(attrNot.value).None?
    ensures r.InvalidAttr? ==> r.raw == attr.value
    ensures r.InvalidAttrNot? ==> r.raw == attrNot.value
    ensures r.Wheres? ==>
            r.wheres == (if attr.Some? && attr.value != "" then [AttrPredicate(AttrKv(attr.value).value, a, b)] else []) +
                        (if attrNot.Some? && attrNot.value != "" then [AttrNotPredicate(AttrKv(attrNot.value).value, a, b)] else [])
  {
    var wheres := [];
    if attr.Some? && attr.value != "" {
      var kv := AttrKv(attr.value);
      if kv.None? { return InvalidAttr(attr.value); }
      wheres := wheres + [AttrPredicate(kv.value, a, b)];
    }
    if attrNot.Some? && attrNot.value != "" {
      var kv := AttrKv(attrNot.value);
      if kv.None? { return InvalidAttrNot(attrNot.value); }
      wheres := wheres + [AttrNotPredicate(kv.value, a, b)];
    }
    return Wheres(wheres);
  }

  lemma ScanStep(p: string, s: string, text: string)
    requires '\'' !in p && EndsLiteral(text) && ScanStatement(text).Some?
    ensures ScanStatement(p + SqlString(s) + text) ==
            Some(Scan(p + "?" + ScanStatement(text).value.skeleton, [s] + ScanStatement(text).value.literals))
  {
    ScanLiteral(s, text);
    ScanPlain(p, SqlString(s) + text);
    assert p + SqlString(s) + text == p + (SqlString(s) + text);
    assert p + ("?" + ScanStatement(text).value.skeleton) == p + "?" + ScanStatement(text).value.skeleton;
  }

  /** The shape of a filter predicate never depends on the key or value it filters for. */
  lemma FilterShapeIsFixed(kv: KeyValue, a: string, b: string)
    requires '\'' !in a && '\'' !in b
    ensures ScanStatement(AttrPredicate(kv, a, b)) ==
            Some(Scan("(" + a + "[?] = ? OR " + b + "[?] = ?)", [kv.key, kv.value, kv.key, kv.value]))
    ensures ScanStatement(AttrNotPredicate(kv, a, b)) ==
            Some(Scan("NOT (COALESCE(" + a + "[?] = ?, false) OR COALESCE(" + b + "[?] = ?, false))",
                      [kv.key, kv.value, kv.key, kv.value]))
  {
    hide ScanStatement, SqlString;
    ShapeText(a, b);
    FourLiterals(kv, "(" + a + "[", " OR " + b + "[", ")");
    FourLiterals(kv, "NOT (COALESCE(" + a + "[", ", false) OR COALESCE(" + b + "[", ", false))");
  }

  lemma ShapeText(a: string, b: string)
    ensures AttrShape("?", "?", a, b) == "(" + a + "[?] = ? OR " + b + "[?] = ?)"
    ensures AttrNotShape("?", "?", a, b) == "NOT (COALESCE(" + a + "[?] = ?, false) OR COALESCE(" + b + "[?] = ?, false))"
  {
    ShapePieces();
    ShapeRegroup("(", a, "[", " OR ", b, ")");
    ShapeRegroup("NOT (COALESCE(", a, "[", ", false) OR COALESCE(", b, ", false))");
  }

  lemma ShapePieces()
    ensures "[" + "?" + ("] = " + "?" + " OR ") == "[?] = ? OR "
    ensures "[" + "?" + ("] = " + "?" + ")") == "[?] = ?)"
    ensures "[" + "?" + ("] = " + "?" + ", false) OR COALESCE(") == "[?] = ?, false) OR COALESCE("
    ensures "[" + "?" + ("] = " + "?" + ", false))") == "[?] = ?, false))"
  {
  }

  lemma ShapeRegroup(front: string, a: string, open: string, middle: string, b: string, back: string)
    ensures front + a + open + "?" + ("] = " + "?" + (middle + b + open + "?" + ("] = " + "?" + back))) ==
            front + a + (open + "?" + ("] = " + "?" + middle)) + b + (open + "?" + ("] = " + "?" + back))
  {
  }

  /** A key, a fixed text and a value in front of a statement that scans. */
  lemma TwoLiterals(kv: KeyValue, before: string, text: string)
    requires '\'' !in before && EndsLiteral(text) && ScanStatement(text).Some?
    ensures var scan := ScanStatement(text).value;
            ScanStatement(before + SqlString(kv.key) + ("] = " + SqlString(kv.value) + text)) ==
            Some(Scan(before + "?" + ("] = " + "?" + scan.skeleton), [kv.key, kv.value] + scan.literals))
  {
    hide SqlString, ScanStatement;
    var scan, t := ScanStatement(text).value, "] = " + SqlString(kv.value) + text;
    assert EndsLiteral(t);
    ScanStep("] = ", kv.value, text);
    ScanStep(before, kv.key, t);
    assert [kv.key] + ([kv.value] + scan.literals) == [kv.key, kv.value] + scan.literals;
  }

  lemma StartsPlain(p: string, rest: string)
    requires '\'' !in p && p != ""
    ensures EndsLiteral(p + rest)
  {
    assert (p + rest)[0] == p[0];
  }

  lemma FourLiterals(kv: KeyValue, before: string, between: string, after: string)
    requires '\'' !in before && '\'' !in between && '\'' !in after && between != "" && after != ""
    ensures var k, v := SqlString(kv.key), SqlString(kv.value);
            ScanStatement(before + k + ("] = " + v + (between + k + ("] = " + v + after)))) ==
            Some(Scan(before + "?" + ("] = " + "?" + (between + "?" + ("] = " + "?" + after))), [kv.key, kv.value, kv.key, kv.value]))
  {
    hide SqlString;
    ScanPlain(after, "");
    assert after + "" == after;
    hide ScanStatement;
    var inner := between + SqlString(kv.key) + ("] = " + SqlString(kv.value) + after);
    StartsPlain(after, "");
    TwoLiterals(kv, between, after);
    StartsPlain(between, SqlString(kv.key) + ("] = " + SqlString(kv.value) + after));
    assert inner == between + (SqlString(kv.key) + ("] = " + SqlString(kv.value) + after));
    TwoLiterals(kv, before, inner);
    assert [kv.key, kv.value] + ([kv.key, kv.value] + []) == [kv.key, kv.value, kv.key, kv.value];
  }
}
