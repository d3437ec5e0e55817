/**
 * Turning the two completion texts of `generate_search_queries` into query
 * lists. The completion service itself is not modelled: its reply text is the
 * input of each parser.
 */
module QueryParsing {
  import opened Text

  /** A query as the parser emits it: non-empty and already stripped. */
  predicate IsCleanQuery(q: string) {
    q != "" && Strip(q) == q
  }

  /** `[q.strip() for q in lines if q.strip()]` */
  function KeepNonBlank(lines: seq<string>): (qs: seq<string>)
    ensures |qs| <= |lines|
  {
    if lines == [] then []
    else
      var q := Strip(lines[0]);
      (if q != "" then [q] else []) + KeepNonBlank(lines[1..])
  }

  /** Every kept line is non-empty and stripped. */
  lemma {:induction false} KeepNonBlankClean(lines: seq<string>)
    ensures forall i :: 0 <= i < |KeepNonBlank(lines)| ==> IsCleanQuery(KeepNonBlank(lines)[i])
    decreases |lines|
  {
    if lines != [] {
      KeepNonBlankClean(lines[1..]);
      StripIdempotent(lines[0]);
    }
  }

  /**
   * The database queries: the reply is stripped, split into lines, and every
   * line that is not blank is kept, itself stripped. No count is checked.
   */
  function ParseDatabaseQueries(replyText: string): (qs: seq<string>)
    ensures forall i :: 0 <= i < |qs| ==> IsCleanQuery(qs[i])
  {
    KeepNonBlankClean(Split(Strip(replyText), "\n"));
    KeepNonBlank(Split(Strip(replyText), "\n"))
  }

  /**
   * The internet queries: the stripped reply is split on blank-line
   * separators and each segment loses its surrounding double quotes. No
   * segment is dropped, so even an empty reply yields one (empty) query.
   */
  function ParseInternetQueries(replyText: string): (qs: seq<string>)
    ensures |qs| >= 1
    ensures forall i :: 0 <= i < |qs| ==> qs[i] == "" || (qs[i][0] != '"' && qs[i][|qs[i]| - 1] != '"')
  {
    var parts := Split(Strip(replyText), "\n\n");
    seq(|parts|, i requires 0 <= i < |parts| => StripChars(parts[i], "\""))
  }

  // ---------------------------------------------------------------------
  // Properties of the database-query parser
  // ---------------------------------------------------------------------

  lemma {:induction false} KeepNonBlankAppend(a: seq<string>, b: seq<string>)
    ensures KeepNonBlank(a + b) == KeepNonBlank(a) + KeepNonBlank(b)
    decreases |a|
  {
    if a == [] {
      assert a + b == b;
    } else {
      var q := Strip(a[0]);
      var head: seq<string> := if q != "" then [q] else [];
      assert (a + b)[0] == a[0];
      assert (a + b)[1..] == a[1..] + b;
      assert KeepNonBlank(a + b) == head + KeepNonBlank(a[1..] + b);
      KeepNonBlankAppend(a[1..], b);
    }
  }

  /**
   * Exactly the non-blank lines are kept, in order: every non-blank line
   * contributes its stripped text, and every query is such a line's text.
   */
  lemma {:induction false} KeepNonBlankExactly(lines: seq<string>)
    ensures forall i :: 0 <= i < |lines| && Strip(lines[i]) != "" ==> Strip(lines[i]) in KeepNonBlank(lines)
    ensures forall q :: q in KeepNonBlank(lines) ==> exists i :: 0 <= i < |lines| && Strip(lines[i]) != "" && Strip(lines[i]) == q
    decreases |lines|
  {
    if lines != [] {
      KeepNonBlankExactly(lines[1..]);
      var head: seq<string> := if Strip(lines[0]) != "" then [Strip(lines[0])] else [];
      assert KeepNonBlank(lines) == head + KeepNonBlank(lines[1..]);
      forall q | q in KeepNonBlank(lines)
        ensures exists i :: 0 <= i < |lines| && Strip(lines[i]) != "" && Strip(lines[i]) == q
      {
        if q in head {
          assert Strip(lines[0]) != "" && Strip(lines[0]) == q;
        } else {
          var j :| 0 <= j < |lines[1..]| && Strip(lines[1..][j]) != "" && Strip(lines[1..][j]) == q;
          assert lines[j + 1] == lines[1..][j];
        }
      }
      forall i | 0 <= i < |lines| && Strip(lines[i]) != "" ensures Strip(lines[i]) in KeepNonBlank(lines) {
        if i > 0 {
          assert lines[i] == lines[1..][i - 1];
        }
      }
    }
  }

  /** The non-blank lines of a text, stripped. */
  function NonBlankLines(s: string): seq<string> {
    KeepNonBlank(Split(s, "\n"))
  }

  lemma LeadingSpaceIrrelevant(c: char, x: string)
    requires IsSpace(c)
    ensures NonBlankLines([c] + x) == NonBlankLines(x)
  {
    var s := [c] + x;
    var p := Split(x, "\n");
    assert s[1..] == x;
    if c == '\n' {
      assert s[..1] == "\n";
      assert Split(s, "\n") == [""] + p;
      assert ([""] + p)[1..] == p;
    } else {
      SplitCharPrefix([c], x, '\n');
      StripSpaceEnds(c, p[0]);
      var q := [[c] + p[0]] + p[1..];
      assert Split(s, "\n") == q;
      assert q[1..] == p[1..];
      assert p == [p[0]] + p[1..];
      assert KeepNonBlank(p) == (if Strip(p[0]) != "" then [Strip(p[0])] else []) + KeepNonBlank(p[1..]);
    }
  }

  lemma TrailingSpaceIrrelevant(x: string, c: char)
    requires IsSpace(c)
    ensures NonBlankLines(x + [c]) == NonBlankLines(x)
  {
    if c == '\n' {
      TrailingNewlineIrrelevant(x);
    } else {
      TrailingBlankIrrelevant(x, c);
    }
  }

  /** A trailing newline only adds an empty last line. */
  lemma TrailingNewlineIrrelevant(x: string)
    ensures NonBlankLines(x + "\n") == NonBlankLines(x)
  {
    var p := Split(x, "\n");
    SplitAtSep(x, "", '\n');
    assert x + "\n" + "" == x + "\n";
    KeepNonBlankAppend(p, [""]);
    assert KeepNonBlank([""]) == [];
  }

  /** A single line is kept, stripped, exactly when it is not blank. */
  lemma KeepNonBlankSingle(line: string)
    ensures KeepNonBlank([line]) == if Strip(line) != "" then [Strip(line)] else []
  {
    assert [line][1..] == [];
  }

  /** A trailing space other than a newline only lengthens the last line, whose stripped form it does not change. */
  lemma TrailingBlankIrrelevant(x: string, c: char)
    requires IsSpace(c) && c != '\n'
    ensures NonBlankLines(x + [c]) == NonBlankLines(x)
  {
    var p := Split(x, "\n");
    var init, last := p[..|p| - 1], p[|p| - 1];
    assert Split(x + [c], "\n") == init + [last + [c]] by {
      SplitCharSuffix(x, [c], '\n');
    }
    assert p == init + [last];
    KeepNonBlankAppend(init, [last + [c]]);
    KeepNonBlankAppend(init, [last]);
    StripSpaceEnds(c, last);
    KeepNonBlankSingle(last + [c]);
    KeepNonBlankSingle(last);
  }

  lemma {:induction false} StripStartIrrelevant(s: string)
    ensures NonBlankLines(StripStart(s, IsSpace)) == NonBlankLines(s)
    decreases |s|
  {
    if s != [] && IsSpace(s[0]) {
      StripStartIrrelevant(s[1..]);
      LeadingSpaceIrrelevant(s[0], s[1..]);
      assert s == [s[0]] + s[1..];
    }
  }

  lemma {:induction false} StripEndIrrelevant(s: string)
    ensures NonBlankLines(StripEnd(s, IsSpace)) == NonBlankLines(s)
    decreases |s|
  {
    if s != [] && IsSpace(s[|s| - 1]) {
      StripEndIrrelevant(s[..|s| - 1]);
      TrailingSpaceIrrelevant(s[..|s| - 1], s[|s| - 1]);
      assert s == s[..|s| - 1] + [s[|s| - 1]];
    }
  }

  /**
   * Stripping the whole reply first changes nothing: the database queries are
   * exactly the non-blank lines of the raw reply, each stripped, in order.
   */
  lemma DatabaseQueriesAreNonBlankLines(replyText: string)
    ensures ParseDatabaseQueries(replyText) == KeepNonBlank(Split(replyText, "\n"))
  {
    StripStartIrrelevant(replyText);
    StripEndIrrelevant(StripStart(replyText, IsSpace));
  }

  /**
   * A reply whose lines are already stripped and non-empty yields those lines
   * unchanged, one query per line.
   */
  lemma {:induction false} CleanLinesRoundTrip(lines: seq<string>)
    requires lines != []
    requires forall i :: 0 <= i < |lines| && lines[i] != "" ==> '\n' !in lines[i]
    requires forall i :: 0 <= i < |lines| ==> lines[i] != "" && Strip(lines[i]) == lines[i]
    ensures ParseDatabaseQueries(Join(lines, "\n")) == lines
  {
    DatabaseQueriesAreNonBlankLines(Join(lines, "\n"));
    SplitJoinChar(lines, '\n');
    KeepCleanLines(lines);
  }

  lemma {:induction false} KeepCleanLines(lines: seq<string>)
    requires forall i :: 0 <= i < |lines| ==> lines[i] != "" && Strip(lines[i]) == lines[i]
    ensures KeepNonBlank(lines) == lines
    decreases |lines|
  {
    if lines != [] {
      KeepCleanLines(lines[1..]);
      assert lines == [lines[0]] + lines[1..];
    }
  }

  // ---------------------------------------------------------------------
  // Properties of the internet-query parser
  // ---------------------------------------------------------------------

  /**
   * No segment of the stripped reply is lost: rejoining the segments gives the
   * stripped reply back, and query `i` is segment `i` without its quotes.
   */
  lemma InternetQueriesKeepEverySegment(replyText: string)
    ensures var parts := Split(Strip(replyText), "\n\n");
      && Join(parts, "\n\n") == Strip(replyText)
      && |ParseInternetQueries(replyText)| == |parts|
      && forall i :: 0 <= i < |parts| ==> ParseInternetQueries(replyText)[i] == StripChars(parts[i], "\"")
  {
    JoinSplit(Strip(replyText), "\n\n");
  }

  /**
   * A blank reply gives no database query but one empty internet query:
   * the two parsers differ on empty segments.
   */
  lemma BlankReply(replyText: string)
    requires IsBlank(replyText)
    ensures ParseDatabaseQueries(replyText) == []
    ensures ParseInternetQueries(replyText) == [""]
  {
    StripEmpty(replyText);
    assert Split("", "\n") == [""];
    assert Split("", "\n\n") == [""];
    assert StripChars("", "\"") == "";
  }
}
