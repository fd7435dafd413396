/** From the two texts of services/tool-server/handlers_diff.go to their lines, and when a dry run is "unchanged". */
module DiffText {
  import opened LineDiff
  import opened Strings

  /** strings.TrimRight(s, "\n"). */
  function TrimNewlines(s: string): string {
    if s != "" && s[|s| - 1] == '\n' then TrimNewlines(s[..|s| - 1]) else s
  }

  function SplitLines(s: string): seq<string> {
    if s == "" then [] else Split(TrimNewlines(s), '\n')
  }

  /** The lines lose only the newlines at the end, and whether the text was empty is kept. */
  lemma SplitLinesEqualIff(s: string, t: string)
    ensures SplitLines(s) == SplitLines(t) <==> (s == "" <==> t == "") && TrimNewlines(s) == TrimNewlines(t)
  {
    JoinSplit(TrimNewlines(s), '\n');
    JoinSplit(TrimNewlines(t), '\n');
  }

  /** handleDiff's status for an object that exists: "unchanged" when nothing is counted. */
  predicate Unchanged(live: string, want: string) {
    ChangeCount(Script(SplitLines(live), SplitLines(want))) == 0
  }

  /**
   Two JSON texts (not empty, no newline at the end) are "unchanged" exactly when they are equal and within the line
   cap. Past the cap an apply that would change nothing is still reported as "changed".
   */
  lemma UnchangedIff(live: string, want: string)
    requires live != "" && live[|live| - 1] != '\n' && want != "" && want[|want| - 1] != '\n'
    ensures Unchanged(live, want) <==> live == want && !OverCap(SplitLines(live), SplitLines(want))
  {
    NothingCountedIff(SplitLines(live), SplitLines(want));
    SplitLinesEqualIff(live, want);
  }

  // ----- a text past the cap -----

  /** The lines of an object with a list of `n + 1` numbers, indented as the texts to compare are. */
  function LongLines(n: nat): seq<string> {
    LongHead() + seq(n, _ => "    1,") + ["    1", "  ]", "}"]
  }

  function LongHead(): seq<string> {
    ["{", "  \"kind\": \"Rows\",", "  \"metadata\": {", "    \"name\": \"r\"", "  },", "  \"rows\": ["]
  }

  function LongObject(n: nat): string {
    Join(LongLines(n), '\n')
  }

  lemma {:induction false} JoinEnds(parts: seq<string>, sep: char)
    requires parts != [] && parts[|parts| - 1] != ""
    ensures Join(parts, sep) != ""
    ensures Join(parts, sep)[|Join(parts, sep)| - 1] == parts[|parts| - 1][|parts[|parts| - 1]| - 1]
  {
    if |parts| > 1 {
      JoinEnds(parts[1..], sep);
    }
  }

  lemma LongLinesPlain(n: nat)
    ensures forall p | p in LongLines(n) :: '\n' !in p
  {
    LongHeadPlain();
    hide LongHead;
  }

  lemma LongHeadPlain()
    ensures forall p | p in LongHead() :: '\n' !in p
    ensures |LongHead()| == 6
  {
  }

  lemma LongObjectLines(n: nat)
    ensures var text := LongObject(n);
            text != "" && text[|text| - 1] == '}' && SplitLines(text) == LongLines(n)
  {
    var lines := LongLines(n);
    assert lines != [] && lines[|lines| - 1] == "}";
    LongLinesPlain(n);
    hide LongLines, Join, Split;
    JoinEnds(lines, '\n');
    SplitJoin(lines, '\n');
  }

  /** Past the cap an apply that would change nothing is reported as "changed". */
  lemma LongObjectNeverUnchanged(n: nat)
    requires n + 9 > DIFF_LINES_CAP
    ensures !Unchanged(LongObject(n), LongObject(n))
  {
    LongHeadPlain();
    hide LongHead;
    LongObjectLines(n);
    hide LongObject;
    UnchangedIff(LongObject(n), LongObject(n));
  }
}
