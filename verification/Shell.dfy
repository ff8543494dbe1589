/** Steady-state probe commands, and a word splitter for the quoting of POSIX.1-2017 Shell, sections 2.2.1 and 2.2.2. */
module Shell {
  import opened Text

  // ---------------------------------------------------------------------------------------------
  // The printer

  datatype ProbeSpec = Exec(command: string, pattern: string) | Http(url: string, pattern: string)

  function ShellQuote(value: string): string {
    "'" + Replace(value, '\'', "'\\''") + "'"
  }

  function DefaultFor(target: string): ProbeSpec {
    Exec("echo " + ShellQuote(target) + " steady-state ok", "steady-state ok")
  }

  function CommandAndExpect(p: ProbeSpec): (string, string) {
    match p
    case Exec(command, pattern) => (command, pattern)
    case Http(url, pattern) => ("curl -fsS " + ShellQuote(url), if pattern == "" then "." else pattern)
  }

  // ---------------------------------------------------------------------------------------------
  // The reader

  predicate Blank(c: char) {
    c == ' ' || c == '\t'
  }

  /** Characters that mean something to the shell beyond sections 2.2.1 and 2.2.2; this reader declines them. */
  predicate Special(c: char) {
    c in "|&;<>()$`\"\n*?[#~=%"
  }

  function Append(word: Option<string>, c: char): Option<string> {
    match word
    case None => Some([c])
    case Some(w) => Some(w + [c])
  }

  function Open(word: Option<string>): Option<string> {
    match word
    case None => Some("")
    case Some(_) => word
  }

  function EndWord(word: Option<string>, rest: Option<seq<string>>): Option<seq<string>> {
    if word.None? || rest.None? then rest else Some([word.value] + rest.value)
  }

  /**
   * The words of a command, reading inside or outside single quotes with a word under way or not.
   * No words when a quote stays open, a NUL occurs, or the text uses more of the shell than quoting.
   */
  function Words(text: string, quoted: bool, word: Option<string>): Option<seq<string>>
    decreases |text|
  {
    if text == "" then (if quoted then None else EndWord(word, Some([])))
    else if text[0] == '\0' then None
    else if quoted then
      (if text[0] == '\'' then Words(text[1..], false, word) else Words(text[1..], true, Append(word, text[0])))
    else if text[0] == '\'' then Words(text[1..], true, Open(word))
    else if text[0] == '\\' then
      (if |text| == 1 || text[1] == '\0' then None
       else if text[1] == '\n' then Words(text[2..], false, word)
       else Words(text[2..], false, Append(word, text[1])))
    else if Blank(text[0]) then EndWord(word, Words(text[1..], false, None))
    else if Special(text[0]) then None
    else Words(text[1..], false, Append(word, text[0]))
  }

  predicate Plain(c: char) {
    c != '\0' && c != '\'' && c != '\\' && !Blank(c) && !Special(c)
  }

  lemma {:induction false} PlainText(p: string, w: string, rest: string)
    requires forall c <- p :: Plain(c)
    ensures Words(p + rest, false, Some(w)) == Words(rest, false, Some(w + p))
  {
    if p == "" {
      assert p + rest == rest && w + p == w;
    } else {
      assert (p + rest)[1..] == p[1..] + rest;
      assert Plain(p[0]);
      PlainText(p[1..], w + [p[0]], rest);
      assert w + [p[0]] + p[1..] == w + p;
    }
  }

  lemma PlainWord(p: string, rest: string)
    requires p != "" && forall c <- p :: Plain(c)
    ensures Words(p + rest, false, None) == Words(rest, false, Some(p))
  {
    assert (p + rest)[1..] == p[1..] + rest;
    assert Plain(p[0]);
    PlainText(p[1..], [p[0]], rest);
    assert [p[0]] + p[1..] == p;
  }

  lemma {:induction false} InsideQuotes(v: string, w: string, rest: string)
    ensures Words(Replace(v, '\'', "'\\''") + ("'" + rest), true, Some(w)) ==
            if '\0' in v then None else Words(rest, false, Some(w + v))
  {
    var tail := "'" + rest;
    if v == "" {
      assert Replace(v, '\'', "'\\''") + tail == tail && tail[1..] == rest;
      assert w + v == w;
    } else {
      var more := Replace(v[1..], '\'', "'\\''") + tail;
      var text := Replace(v, '\'', "'\\''") + tail;
      InsideQuotes(v[1..], w + [v[0]], rest);
      assert w + [v[0]] + v[1..] == w + v;
      if v[0] == '\'' {
        assert text == "'\\''" + more;
        EscapedQuote(w, more);
      } else {
        assert text == [v[0]] + more;
        assert text[1..] == more;
      }
    }
  }

  lemma EscapedQuote(w: string, more: string)
    ensures Words("'\\''" + more, true, Some(w)) == Words(more, true, Some(w + "'"))
  {
    var text := "'\\''" + more;
    assert text[1..] == "\\''" + more;
    assert text[1..][2..] == "'" + more;
    assert text[1..][2..][1..] == more;
    assert Words(text[1..][2..], false, Some(w + "'")) == Words(more, true, Some(w + "'"));
    assert Words(text[1..], false, Some(w)) == Words(text[1..][2..], false, Some(w + "'"));
  }

  /** A quoted value is one piece of one word and carries the value unchanged; only NUL cannot be carried. */
  lemma QuotedValue(v: string, word: Option<string>, rest: string)
    ensures Words(ShellQuote(v) + rest, false, word) ==
            if '\0' in v then None else Words(rest, false, Some((if word.None? then "" else word.value) + v))
  {
    hide Words, Replace;
    var body := Replace(v, '\'', "'\\''");
    assert ShellQuote(v) + rest == "'" + (body + ("'" + rest));
    OpeningQuote(word, body + ("'" + rest));
    InsideQuotes(v, Open(word).value, rest);
  }

  lemma OpeningQuote(word: Option<string>, more: string)
    ensures Words("'" + more, false, word) == Words(more, true, Open(word))
  {
    assert ("'" + more)[1..] == more;
  }

  lemma NextWord(w: string, rest: string)
    ensures Words(" " + rest, false, Some(w)) == EndWord(Some(w), Words(rest, false, None))
  {
    assert (" " + rest)[1..] == rest;
  }

  predicate LetterOrDash(c: char) {
    'a' <= c <= 'z' || c == 'S' || c == '-'
  }

  lemma LettersArePlain(p: string)
    requires forall c <- p :: LetterOrDash(c)
    ensures forall c <- p :: Plain(c)
  {
  }

  lemma FixedWordsArePlain()
    ensures forall c <- "echo" :: Plain(c)
    ensures forall c <- "steady-state" :: Plain(c)
    ensures forall c <- "ok" :: Plain(c)
    ensures forall c <- "curl" :: Plain(c)
    ensures forall c <- "-fsS" :: Plain(c)
  {
    hide Plain;
    LettersArePlain("echo");
    LettersArePlain("steady-state");
    LettersArePlain("ok");
    LettersArePlain("curl");
    LettersArePlain("-fsS");
  }

  lemma DefaultText(q: string)
    ensures "echo " + q + " steady-state ok" == "echo" + (" " + (q + (" " + ("steady-state" + (" " + "ok")))))
  {
    var tail := " " + ("steady-state" + (" " + "ok"));
    assert tail == " steady-state ok";
    assert "echo" + " " == "echo ";
    assert "echo" + (" " + (q + tail)) == ("echo" + " ") + q + tail;
  }

  /** The default probe runs echo with the target as its own word, exactly when the target has no NUL. */
  lemma DefaultProbeWords(target: string)
    ensures Words(CommandAndExpect(DefaultFor(target)).0, false, None) ==
            if '\0' in target then None else Some(["echo", target, "steady-state", "ok"])
    ensures CommandAndExpect(DefaultFor(target)).1 == "steady-state" + " " + "ok"
  {
    hide Words, ShellQuote, Plain;
    FixedWordsArePlain();
    var tail := " " + ("steady-state" + (" " + "ok"));
    DefaultText(ShellQuote(target));
    PlainWord("echo", " " + (ShellQuote(target) + tail));
    NextWord("echo", ShellQuote(target) + tail);
    QuotedValue(target, None, tail);
    assert "" + target == target;
    NextWord(target, "steady-state" + (" " + "ok"));
    PlainWord("steady-state", " " + "ok");
    NextWord("steady-state", "ok");
    LastWord("ok");
    assert ["echo"] + ([target] + (["steady-state"] + ["ok"])) == ["echo", target, "steady-state", "ok"];
  }

  lemma LastWord(p: string)
    requires p != "" && forall c <- p :: Plain(c)
    ensures Words(p, false, None) == Some([p])
  {
    PlainWord(p, "");
    assert p + "" == p;
    EndOfText(p);
  }

  /** The HTTP probe runs curl on exactly the URL. */
  lemma HttpProbeWords(url: string, pattern: string)
    ensures Words(CommandAndExpect(Http(url, pattern)).0, false, None) ==
            if '\0' in url then None else Some(["curl", "-fsS", url])
    ensures CommandAndExpect(Http(url, pattern)).1 == if pattern == "" then "." else pattern
  {
    hide Words, Replace, Plain;
    FixedWordsArePlain();
    assert CommandAndExpect(Http(url, pattern)).0 == "curl" + (" " + ("-fsS" + (" " + (ShellQuote(url) + ""))));
    PlainWord("curl", " " + ("-fsS" + (" " + (ShellQuote(url) + ""))));
    NextWord("curl", "-fsS" + (" " + (ShellQuote(url) + "")));
    PlainWord("-fsS", " " + (ShellQuote(url) + ""));
    NextWord("-fsS", ShellQuote(url) + "");
    QuotedValue(url, None, "");
    assert "" + url == url;
    EndOfText(url);
    assert ["curl"] + (["-fsS"] + [url]) == ["curl", "-fsS", url];
  }

  lemma EndOfText(w: string)
    ensures Words("", false, Some(w)) == Some([w])
  {
    assert [w] + [] == [w];
  }
}
