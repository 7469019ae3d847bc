/** The module installer hook: it reads the requested module names from a text file,
    keeps those the database has not installed or queued yet, hands them sorted to the
    Odoo command line and colours the severity word of each line the command prints. */
module InstallModules {
  import opened Common
  import opened Text

  // ---------------------------------------------------------------------------
  // the module list file
  // ---------------------------------------------------------------------------

  /** The lines a text-mode file iterates over: each keeps its newline, and a file that
      ends in a newline has no empty last line. */
  function FileLines(text: string): (r: seq<string>)
    ensures forall i :: 0 <= i < |r| ==> r[i] != []
  {
    var p := Split(text, '\n');
    var body := seq(|p| - 1, i requires 0 <= i < |p| - 1 => p[i] + "\n");
    if p[|p| - 1] == "" then body else body + [p[|p| - 1]]
  }

  /** Universal newlines: a lone carriage return also ends a line. Turning every
      carriage return into a newline can only add empty lines, which hold no names. */
  function NormalizeNewlines(text: string): string {
    ReplaceChar(text, '\r', '\n')
  }

  /** Each line cut at its first `#`: a line without `#` is kept whole, and otherwise the
      cut falls exactly on the first `#`. */
  function StripComments(lines: seq<string>): (r: seq<string>)
    ensures |r| == |lines|
    ensures forall i :: 0 <= i < |r| ==> '#' !in r[i] && r[i] <= lines[i]
    ensures forall i :: 0 <= i < |r| && '#' !in lines[i] ==> r[i] == lines[i]
    ensures forall i :: 0 <= i < |r| && '#' in lines[i] ==> |r[i]| < |lines[i]| && lines[i][|r[i]|] == '#'
  {
    seq(|lines|, i requires 0 <= i < |lines| => BeforeFirst(lines[i], '#'))
  }

  /** The uncommented text with `;` and `,` turned into blanks, cut into chunks at whitespace. */
  function Chunks(raw: seq<string>): seq<string> {
    Words(ReplaceChar(ReplaceChar(Join("\n", raw), ';', ','), ',', ' '))
  }

  /** A character allowed in a module name (ASCII letters and digits, `_` and `-`). */
  predicate IsNameChar(ch: char) {
    IsAsciiAlnum(ch) || ch == '_' || ch == '-'
  }

  /** A chunk kept as a module name. */
  predicate IsModuleName(c: string) {
    c != [] && forall j :: 0 <= j < |c| ==> IsNameChar(c[j])
  }

  /** The names that the file's text requests, in first-occurrence order; no file, no names. */
  function ModulesOf(content: Option<string>): seq<string> {
    match content
    case None => []
    case Some(text) =>
      Dedup(Filter(Chunks(StripComments(FileLines(NormalizeNewlines(text)))), IsModuleName))
  }

  /** `read_modules_list`, loop for loop. */
  method ReadModulesList(content: Option<string>) returns (result: seq<string>)
    ensures result == ModulesOf(content)
  {
    if content.None? {
      return [];
    }
    var lines := FileLines(NormalizeNewlines(content.value));
    var raw := UncommentedLines(lines);
    var tokens := ModuleChunks(Chunks(raw));
    result := DedupInOrder(tokens);
  }

  /** The loop over the file's lines: each cut at its first `#`. */
  method UncommentedLines(lines: seq<string>) returns (raw: seq<string>)
    ensures raw == StripComments(lines)
  {
    raw := [];
    for i := 0 to |lines|
      invariant raw == StripComments(lines)[..i]
    {
      raw := raw + [BeforeFirst(lines[i], '#')];
    }
  }

  /** The loop over the chunks: blank ones and ones with other characters dropped. */
  method ModuleChunks(chunks: seq<string>) returns (tokens: seq<string>)
    requires forall i :: 0 <= i < |chunks| ==> IsWord(chunks[i])
    ensures tokens == Filter(chunks, IsModuleName)
  {
    tokens := [];
    for i := 0 to |chunks|
      invariant tokens == Filter(chunks[..i], IsModuleName)
    {
      assert chunks[..i + 1] == chunks[..i] + [chunks[i]];
      FilterAppend(chunks[..i], chunks[i], IsModuleName);
      WordIsTrimmed(chunks[i]);
      var c := Trim(chunks[i]);
      if c == [] {
        continue;
      }
      if !(forall j :: 0 <= j < |c| ==> IsNameChar(c[j])) {
        continue;
      }
      tokens := tokens + [c];
    }
    assert chunks[..|chunks|] == chunks;
  }

  /** A chunk of `split()` has nothing to strip. */
  lemma WordIsTrimmed(w: string)
    requires IsWord(w)
    ensures Trim(w) == w
  {
    StrippedIff(w, Whitespace);
  }

  /** What the reader returns: distinct, well-formed names, every one of them a chunk of
      the text, every well-formed chunk among them, and in the order in which they first
      occur in the text. */
  lemma ModulesOfProperties(content: Option<string>)
    ensures NoDuplicates(ModulesOf(content))
    ensures forall i :: 0 <= i < |ModulesOf(content)| ==> IsModuleName(ModulesOf(content)[i])
    ensures content.Some? ==>
      var chunks := Chunks(StripComments(FileLines(NormalizeNewlines(content.value))));
      forall c :: c in ModulesOf(content) <==> c in chunks && IsModuleName(c)
    ensures content.Some? ==>
      var chunks := Chunks(StripComments(FileLines(NormalizeNewlines(content.value))));
      var mods := ModulesOf(content);
      forall i, j :: 0 <= i < j < |mods| ==>
        mods[i] in chunks && mods[j] in chunks && FirstIndex(chunks, mods[i]) < FirstIndex(chunks, mods[j])
  {
    if content.Some? {
      var chunks := Chunks(StripComments(FileLines(NormalizeNewlines(content.value))));
      assert ModulesOf(content) == Dedup(Filter(chunks, IsModuleName));
      NamesOfChunks(chunks);
    }
  }

  /** The distinct well-formed chunks, in the order of their first occurrence. */
  lemma NamesOfChunks(chunks: seq<string>)
    ensures var mods := Dedup(Filter(chunks, IsModuleName));
      && NoDuplicates(mods)
      && (forall i :: 0 <= i < |mods| ==> IsModuleName(mods[i]))
      && (forall c :: c in mods <==> c in chunks && IsModuleName(c))
      && (forall i, j :: 0 <= i < j < |mods| ==>
            mods[i] in chunks && mods[j] in chunks && FirstIndex(chunks, mods[i]) < FirstIndex(chunks, mods[j]))
  {
    var f := Filter(chunks, IsModuleName);
    DedupNoDuplicates(f);
    DedupMembers(f);
    DedupOrder(f);
    forall i, j | 0 <= i < j < |Dedup(f)|
      ensures Dedup(f)[i] in chunks && Dedup(f)[j] in chunks
      ensures FirstIndex(chunks, Dedup(f)[i]) < FirstIndex(chunks, Dedup(f)[j])
    {
      FilterFirstIndex(chunks, IsModuleName, Dedup(f)[i], Dedup(f)[j]);
    }
    forall i | 0 <= i < |Dedup(f)|
      ensures IsModuleName(Dedup(f)[i])
    {
      assert Dedup(f)[i] in f;
    }
    forall c
      ensures c in Dedup(f) <==> c in chunks && IsModuleName(c)
    {
      if c in chunks && IsModuleName(c) {
        var k :| 0 <= k < |chunks| && chunks[k] == c;
      }
    }
  }

  lemma SplitWithout(s: string, c: char)
    requires c !in s
    ensures Split(s, c) == [s]
  {
    SplitPrefix(s, "", c);
    assert s + "" == s;
  }

  /** A non-empty text without newline is a file of one line. */
  lemma OneLine(text: string)
    requires text != [] && '\n' !in text
    ensures FileLines(text) == [text]
  {
    SplitWithout(text, '\n');
  }

  /** One line without `#` and without `;`: its chunks are its comma- and blank-separated words. */
  lemma ChunksOfLine(text: string)
    requires '#' !in text && ';' !in text
    ensures Chunks(StripComments([text])) == Words(ReplaceChar(text, ',', ' '))
  {
    assert StripComments([text]) == [text];
    assert Join("\n", [text]) == text;
    ReplaceAbsent(text, ';', ',');
  }

  /** The chunks of the text `a,b,c` are a, b and c. */
  lemma ChunksOfCommaJoined(mods: seq<string>)
    requires forall i :: 0 <= i < |mods| ==> IsModuleName(mods[i])
    ensures Chunks(StripComments(FileLines(NormalizeNewlines(Join(",", mods))))) == mods
  {
    JoinChars(mods);
    if Join(",", mods) == [] {
      assert NormalizeNewlines([]) == [];
      assert FileLines([]) == [];
      assert Chunks([]) == [];
      assert mods == [];
    } else {
      ChunksOfOneLine(mods);
    }
  }

  lemma ChunksOfOneLine(mods: seq<string>)
    requires forall i :: 0 <= i < |mods| ==> IsModuleName(mods[i])
    requires Join(",", mods) != []
    requires forall ch :: ch in Join(",", mods) ==> ch == ',' || IsNameChar(ch)
    ensures Chunks(StripComments(FileLines(NormalizeNewlines(Join(",", mods))))) == mods
  {
    var text := Join(",", mods);
    NoSpecialChars(text);
    ReplaceAbsent(text, '\r', '\n');
    OneLine(text);
    ChunksOfLine(text);
    CommaJoinedWords(mods);
  }

  lemma NameIsWord(c: string)
    requires IsModuleName(c)
    ensures ',' !in c && IsWord(c)
  {
    forall j | 0 <= j < |c|
      ensures c[j] != ',' && !IsSpace(c[j])
    {
      assert IsNameChar(c[j]);
    }
  }

  lemma NoSpecialChars(text: string)
    requires forall ch :: ch in text ==> ch == ',' || IsNameChar(ch)
    ensures '\r' !in text && '\n' !in text && '#' !in text && ';' !in text
  {
    assert !IsNameChar('\r') && !IsNameChar('\n') && !IsNameChar('#') && !IsNameChar(';');
  }

  lemma CommaJoinedWords(mods: seq<string>)
    requires forall i :: 0 <= i < |mods| ==> IsModuleName(mods[i])
    ensures Words(ReplaceChar(Join(",", mods), ',', ' ')) == mods
  {
    forall i | 0 <= i < |mods|
      ensures ',' !in mods[i] && IsWord(mods[i])
    {
      NameIsWord(mods[i]);
    }
    ReplaceJoin(mods, ',', ' ');
    WordsJoin(mods);
  }

  /** A list written back as `a,b,c` on one line reads as the same list. */
  lemma ReadCommaJoined(mods: seq<string>)
    requires NoDuplicates(mods)
    requires forall i :: 0 <= i < |mods| ==> IsModuleName(mods[i])
    ensures ModulesOf(Some(Join(",", mods))) == mods
  {
    ChunksOfCommaJoined(mods);
    ModulesOfChunks(Join(",", mods), mods);
  }

  /** The joined text contains only the parts' characters and the separator. */
  lemma {:induction false} JoinChars(mods: seq<string>)
    requires forall i :: 0 <= i < |mods| ==> IsModuleName(mods[i])
    ensures forall ch :: ch in Join(",", mods) ==> ch == ',' || IsNameChar(ch)
    decreases |mods|
  {
    if |mods| > 1 {
      JoinChars(mods[1..]);
    } else if |mods| == 1 {
      assert forall ch :: ch in mods[0] ==> IsNameChar(ch);
    }
  }

  /** A file mixing a comment, a newline, a comma and a semicolon: the comment is dropped
      and the names come in the order they are written. */
  lemma MixedSeparators(a: string, b: string, c: string, t: string)
    requires IsModuleName(a) && IsModuleName(b) && IsModuleName(c)
    requires a != b && b != c && a != c
    requires '\n' !in t && '\r' !in t
    ensures ModulesOf(Some(a + ", #" + t + "\n" + b + ";" + c)) == [a, b, c]
  {
    var text := a + ", #" + t + "\n" + b + ";" + c;
    MixedLines(a, b, c, t);
    MixedChunks(a, b, c);
    ModulesOfChunks(text, [a, b, c]);
  }

  /** A text whose chunks are distinct module names requests exactly those, in order. */
  lemma ModulesOfChunks(text: string, mods: seq<string>)
    requires Chunks(StripComments(FileLines(NormalizeNewlines(text)))) == mods
    requires NoDuplicates(mods)
    requires forall i :: 0 <= i < |mods| ==> IsModuleName(mods[i])
    ensures ModulesOf(Some(text)) == mods
  {
    FilterAllTrue(mods, IsModuleName);
    DedupOfDistinct(mods);
  }

  /** The lines of the mixed file, cut at their comments. */
  lemma MixedLines(a: string, b: string, c: string, t: string)
    requires IsModuleName(a) && IsModuleName(b) && IsModuleName(c)
    requires '\n' !in t && '\r' !in t
    ensures StripComments(FileLines(NormalizeNewlines(a + ", #" + t + "\n" + b + ";" + c)))
         == [a + ", ", b + ";" + c]
  {
    NameChars(a);
    NameChars(b);
    NameChars(c);
    var l1 := a + ", #" + t;
    var l2 := b + ";" + c;
    assert a + ", #" + t + "\n" + b + ";" + c == l1 + "\n" + l2;
    TwoLines(l1, l2);
    assert l1 + "\n" == (a + ", ") + ['#'] + (t + "\n");
    BeforeFirstOf(a + ", ", t + "\n", '#');
    assert '#' !in l2;
  }

  /** Two lines joined by a newline, the second not empty. */
  lemma TwoLines(l1: string, l2: string)
    requires '\n' !in l1 && '\r' !in l1 && '\n' !in l2 && '\r' !in l2 && l2 != []
    ensures FileLines(NormalizeNewlines(l1 + "\n" + l2)) == [l1 + "\n", l2]
  {
    var text := l1 + "\n" + l2;
    assert '\r' !in text;
    ReplaceAbsent(text, '\r', '\n');
    assert Join(['\n'], [l1, l2]) == text;
    JoinSplit([l1, l2], '\n');
  }

  /** The chunks of the uncommented mixed lines are the three names. */
  lemma MixedChunks(a: string, b: string, c: string)
    requires IsModuleName(a) && IsModuleName(b) && IsModuleName(c)
    ensures Chunks([a + ", ", b + ";" + c]) == [a, b, c]
  {
    NameChars(a);
    NameChars(b);
    NameChars(c);
    assert Join("\n", [a + ", ", b + ";" + c]) == a + ", \n" + b + ";" + c;
    ReplaceConcat(a + ", \n" + b, ";" + c, ';', ',');
    ReplaceConcat(a + ", \n", b, ';', ',');
    ReplaceConcat(a, ", \n", ';', ',');
    ReplaceConcat(";", c, ';', ',');
    ReplaceAbsent(a, ';', ',');
    ReplaceAbsent(b, ';', ',');
    ReplaceAbsent(c, ';', ',');
    assert ReplaceChar(";", ';', ',') == ",";
    assert ReplaceChar(", \n", ';', ',') == ", \n";
    var s1 := a + ", \n" + b + "," + c;
    assert ReplaceChar(ReplaceChar(Join("\n", [a + ", ", b + ";" + c]), ';', ','), ',', ' ')
        == ReplaceChar(s1, ',', ' ');
    ReplaceConcat(a + ", \n" + b, "," + c, ',', ' ');
    ReplaceConcat(a + ", \n", b, ',', ' ');
    ReplaceConcat(a, ", \n", ',', ' ');
    ReplaceConcat(",", c, ',', ' ');
    ReplaceAbsent(a, ',', ' ');
    ReplaceAbsent(b, ',', ' ');
    ReplaceAbsent(c, ',', ' ');
    assert ReplaceChar(",", ',', ' ') == " ";
    assert ReplaceChar(", \n", ',', ' ') == "  \n";
    var s2 := a + "  \n" + b + " " + c;
    assert ReplaceChar(s1, ',', ' ') == s2;
    MixedWords(a, b, c);
  }

  lemma MixedWords(a: string, b: string, c: string)
    requires IsWord(a) && IsWord(b) && IsWord(c)
    ensures Words(a + "  \n" + b + " " + c) == [a, b, c]
  {
    var sp1, sp2 := "  \n", " ";
    assert IsSpace(' ') && IsSpace('\n');
    assert forall j :: 0 <= j < |sp1| ==> IsSpace(sp1[j]);
    ThreeWords(a, b, c, sp1, sp2);
  }

  /** Three words separated by runs of whitespace. */
  lemma ThreeWords(a: string, b: string, c: string, sp1: string, sp2: string)
    requires IsWord(a) && IsWord(b) && IsWord(c)
    requires sp1 != [] && forall j :: 0 <= j < |sp1| ==> IsSpace(sp1[j])
    requires sp2 != [] && forall j :: 0 <= j < |sp2| ==> IsSpace(sp2[j])
    ensures Words(a + sp1 + b + sp2 + c) == [a, b, c]
  {
    var t := b + sp2 + c;
    assert a + sp1 + b + sp2 + c == a + sp1 + t;
    WordThenBlanks(a, sp1, t);
    WordThenBlanks(b, sp2, c);
    OneWord(c);
  }

  lemma WordThenBlanks(w: string, sp: string, t: string)
    requires IsWord(w)
    requires sp != [] && forall j :: 0 <= j < |sp| ==> IsSpace(sp[j])
    ensures Words(w + sp + t) == [w] + Words(t)
  {
    assert w + sp + t == w + (sp + t);
    WordsOfWordThen(w, sp + t);
    WordsOfBlanksThen(sp, t);
  }

  lemma OneWord(w: string)
    requires IsWord(w)
    ensures Words(w) == [w]
  {
    WordsOfWordThen(w, "");
    assert w + "" == w;
  }

  /** A module name holds none of the separators. */
  lemma NameChars(c: string)
    requires IsModuleName(c)
    ensures IsWord(c)
    ensures '\n' !in c && '\r' !in c && '#' !in c && ';' !in c && ',' !in c
  {
    NameIsWord(c);
    forall j | 0 <= j < |c|
      ensures c[j] != '\n' && c[j] != '\r' && c[j] != '#' && c[j] != ';'
    {
      assert IsNameChar(c[j]);
    }
  }

  /** A missing file requests nothing. */
  lemma MissingFile()
    ensures ModulesOf(None) == []
  {
  }

  // ---------------------------------------------------------------------------
  // colouring
  // ---------------------------------------------------------------------------

  const Esc: char := '\U{1B}'
  const AnsiReset: string := [Esc] + "[0m"
  const AnsiGreen: string := [Esc] + "[32m"
  const AnsiYellow: string := [Esc] + "[33m"
  const AnsiRed: string := [Esc] + "[31m"
  const AnsiBold: string := [Esc] + "[1m"

  /** The colour of a severity level: red for errors, yellow for warnings, green otherwise. */
  function LevelColor(level: string): (c: string)
    ensures c == AnsiRed <==> Upper(level) == "ERROR"
    ensures c == AnsiYellow <==> Upper(level) == "WARNING" || Upper(level) == "WARN"
    ensures c == AnsiGreen <==> Upper(level) !in {"ERROR", "WARNING", "WARN"}
  {
    assert AnsiRed[3] == '1' && AnsiYellow[3] == '3' && AnsiGreen[3] == '2';
    var lvl := Upper(level);
    if lvl == "ERROR" then AnsiRed
    else if lvl == "WARNING" || lvl == "WARN" then AnsiYellow
    else AnsiGreen
  }

  /** `_colorize_token`: the token in the level's colour, bold, then a reset. The token
      itself is kept intact between nine characters of colour and bold codes and the
      four of the reset, and the first code tells the level. */
  function ColorizeToken(token: string, level: string): (r: string)
    ensures |r| == |token| + 13 && r[9..|r| - 4] == token
    ensures r[5..9] == AnsiBold && r[|r| - 4..] == AnsiReset
    ensures AnsiRed <= r <==> Upper(level) == "ERROR"
    ensures AnsiYellow <= r <==> Upper(level) == "WARNING" || Upper(level) == "WARN"
    ensures AnsiGreen <= r <==> Upper(level) !in {"ERROR", "WARNING", "WARN"}
  {
    LevelColor(level) + AnsiBold + token + AnsiReset
  }

  /** The severity words, in the order the pattern tries them. */
  const Severities: seq<string> := ["INFO", "WARNING", "WARN", "ERROR", "CRITICAL"]

  /** A character of a regular-expression word (ASCII letters, digits and `_`). */
  predicate IsWordChar(ch: char) {
    IsAsciiAlnum(ch) || ch == '_'
  }

  /** tok stands at index i of line as a whole word. */
  predicate WholeWordAt(line: string, i: nat, tok: string) {
    && i + |tok| <= |line| && line[i..i + |tok|] == tok
    && (i == 0 || !IsWordChar(line[i - 1]))
    && (i + |tok| == |line| || !IsWordChar(line[i + |tok|]))
  }

  /** The position, from `k` on, of the first alternative that stands at i as a whole word. */
  function FirstAlternative(line: string, i: nat, alts: seq<string>, k: nat): (r: Option<nat>)
    requires k <= |alts|
    ensures r.Some? ==> k <= r.value < |alts| && WholeWordAt(line, i, alts[r.value])
    ensures r.Some? ==> forall m :: k <= m < r.value ==> !WholeWordAt(line, i, alts[m])
    ensures r.None? ==> forall m :: k <= m < |alts| ==> !WholeWordAt(line, i, alts[m])
    decreases |alts| - k
  {
    if k == |alts| then None
    else if WholeWordAt(line, i, alts[k]) then Some(k)
    else FirstAlternative(line, i, alts, k + 1)
  }

  /** The severity word the pattern matches at index i, if any: the earliest listed one. */
  function SeverityAt(line: string, i: nat): (r: Option<string>)
    ensures r.Some? ==> r.value in Severities && WholeWordAt(line, i, r.value)
    ensures r.None? <==> forall m :: 0 <= m < |Severities| ==> !WholeWordAt(line, i, Severities[m])
  {
    match FirstAlternative(line, i, Severities, 0)
    case None => None
    case Some(k) => Some(Severities[k])
  }

  /** The leftmost index from `from` on where one of the alternatives stands as a word. */
  function LeftmostMatch(line: string, from: nat, alts: seq<string>): (r: Option<nat>)
    ensures r.Some? ==> from <= r.value < |line| && FirstAlternative(line, r.value, alts, 0).Some?
    ensures r.Some? ==> forall j :: from <= j < r.value ==> FirstAlternative(line, j, alts, 0).None?
    ensures r.None? ==> forall j :: from <= j < |line| ==> FirstAlternative(line, j, alts, 0).None?
    decreases |line| - from
  {
    if from >= |line| then None
    else if FirstAlternative(line, from, alts, 0).Some? then Some(from)
    else LeftmostMatch(line, from + 1, alts)
  }

  /** The leftmost index from `from` on where the severity pattern matches. */
  function LeftmostSeverity(line: string, from: nat): (r: Option<nat>)
    ensures r.Some? ==> from <= r.value < |line| && SeverityAt(line, r.value).Some?
    ensures r.Some? ==> forall j :: from <= j < r.value ==> SeverityAt(line, j).None?
    ensures r.None? ==> forall j :: from <= j < |line| ==> SeverityAt(line, j).None?
  {
    LeftmostMatch(line, from, Severities)
  }

  /** The replacement for a matched word: WARN is coloured as a warning. */
  function Paint(token: string): string {
    ColorizeToken(token, if token == "WARN" then "WARNING" else token)
  }

  /** `colorize_severity_token_in_line`: the first whole-word severity is painted. */
  function ColorizeSeverity(line: string): (r: string)
    ensures LeftmostSeverity(line, 0).None? ==> r == line
  {
    match LeftmostSeverity(line, 0)
    case None => line
    case Some(i) => PaintAt(line, i, SeverityAt(line, i).value)
  }

  /** line with the occurrence of tok at index i painted. */
  function PaintAt(line: string, i: nat, tok: string): (r: string)
    requires i + |tok| <= |line|
    ensures |r| == |line| - |tok| + |Paint(tok)|
    ensures r[..i] == line[..i]
    ensures r[i..i + |Paint(tok)|] == Paint(tok)
    ensures r[i + |Paint(tok)|..] == line[i + |tok|..]
  {
    line[..i] + Paint(tok) + line[i + |tok|..]
  }

  /** Only the leftmost whole-word match is replaced; the text before it and everything
      after it, further severity words included, is kept as it was. */
  lemma ColorizeFirstOnly(line: string, i: nat)
    requires i < |line| && SeverityAt(line, i).Some?
    requires forall j :: 0 <= j < i ==> SeverityAt(line, j).None?
    ensures ColorizeSeverity(line) == PaintAt(line, i, SeverityAt(line, i).value)
  {
    LeftmostIs(line, 0, i);
  }

  lemma LeftmostIs(line: string, from: nat, i: nat)
    requires from <= i < |line| && SeverityAt(line, i).Some?
    requires forall j :: from <= j < i ==> SeverityAt(line, j).None?
    ensures LeftmostSeverity(line, from) == Some(i)
  {
    forall j | 0 <= j < |line|
      ensures SeverityAt(line, j).None? <==> FirstAlternative(line, j, Severities, 0).None?
    {
    }
    LeftmostMatchIs(line, from, i, Severities);
  }

  lemma {:induction false} LeftmostMatchIs(line: string, from: nat, i: nat, alts: seq<string>)
    requires from <= i < |line| && FirstAlternative(line, i, alts, 0).Some?
    requires forall j :: from <= j < i ==> FirstAlternative(line, j, alts, 0).None?
    ensures LeftmostMatch(line, from, alts) == Some(i)
    decreases i - from
  {
    if from < i {
      LeftmostMatchIs(line, from + 1, i, alts);
    }
  }

  /** A line without a whole-word severity comes back unchanged. */
  lemma NoSeverityUnchanged(line: string)
    requires forall j :: 0 <= j < |line| ==> SeverityAt(line, j).None?
    ensures ColorizeSeverity(line) == line
  {
    assert LeftmostSeverity(line, 0).None?;
  }

  /** A warning word glued to more letters is no match: `WARNINGS` stays as it is. */
  lemma WarningsIsNotAWord()
    ensures SeverityAt("WARNINGS", 0).None?
  {
    var line := "WARNINGS";
    assert !WholeWordAt(line, 0, Severities[0]) by { assert line[0] != 'I'; }
    assert !WholeWordAt(line, 0, Severities[1]) by { assert IsWordChar(line[7]); }
    assert !WholeWordAt(line, 0, Severities[2]) by { assert IsWordChar(line[4]); }
    assert !WholeWordAt(line, 0, Severities[3]) by { assert line[0] != 'E'; }
    assert !WholeWordAt(line, 0, Severities[4]) by { assert line[0] != 'C'; }
  }

  /** CRITICAL is painted green, like INFO. */
  lemma CriticalIsGreen()
    ensures Paint("CRITICAL") == AnsiGreen + AnsiBold + "CRITICAL" + AnsiReset
  {
    assert Upper("CRITICAL") == "CRITICAL";
  }

  // ---------------------------------------------------------------------------
  // main
  // ---------------------------------------------------------------------------

  /** A module the database knows and has neither installed nor queued. */
  predicate Installable(states: map<string, string>, name: string) {
    name in states && states[name] !in {"installed", "to install", "to upgrade"}
  }

  /** The requested modules still to install, in list order. */
  method FilterInstallable(modules: seq<string>, states: map<string, string>)
    returns (toInstall: seq<string>)
    ensures toInstall == Filter(modules, n => Installable(states, n))
  {
    toInstall := [];
    for i := 0 to |modules|
      invariant toInstall == Filter(modules[..i], n => Installable(states, n))
    {
      assert modules[..i + 1] == modules[..i] + [modules[i]];
      FilterAppend(modules[..i], modules[i], n => Installable(states, n));
      var name := modules[i];
      if name !in states {
        continue;
      }
      if states[name] in {"installed", "to install", "to upgrade"} {
        continue;
      }
      toInstall := toInstall + [name];
    }
    assert modules[..|modules|] == modules;
  }

  /** The command line run for the modules still to install. */
  function CliCommand(db: string, mods: string): string {
    "odoo -c /etc/odoo/odoo.conf -d " + db + " -i " + mods
      + " --http-interface 127.0.0.1 --http-port 8071 --stop-after-init"
  }

  /** `main`: the exit code and the command it runs, if it runs one. The command's own
      exit status is the parameter cliStatus. */
  method Run(content: Option<string>, env: map<string, string>, states: map<string, string>,
              cliStatus: int)
    returns (exit: int, command: Option<string>)
    ensures ModulesOf(content) == [] ==> exit == 0 && command.None?
    ensures var db := if GetEnv(env, "TARGET_DB_NAME", "") != "" then GetEnv(env, "TARGET_DB_NAME", "")
                      else GetEnv(env, "PGDATABASE", "");
      && (ModulesOf(content) != [] && db == "" ==> exit == 2 && command.None?)
      && (ModulesOf(content) != [] && db != "" ==>
          var rest := Filter(ModulesOf(content), n => Installable(states, n));
          && (rest == [] ==> exit == 0 && command.None?)
          && (rest != [] ==>
              && command == Some(CliCommand(db, Join(",", SortStrings(rest))))
              && exit == (if cliStatus != 0 then 4 else 0)))
  {
    var modules := ReadModulesList(content);
    if modules == [] {
      return 0, None;
    }
    var db := GetEnv(env, "TARGET_DB_NAME", "");
    if db == "" {
      db := GetEnv(env, "PGDATABASE", "");
    }
    if db == "" {
      return 2, None;
    }
    var toInstall := FilterInstallable(modules, states);
    if toInstall == [] {
      return 0, None;
    }
    var cmd := CliCommand(db, Join(",", SortStrings(toInstall)));
    command := Some(cmd);
    exit := if cliStatus != 0 then 4 else 0;
  }

  /** The command names every module still to install, each once, in sorted order. */
  lemma CommandModules(modules: seq<string>, states: map<string, string>)
    ensures var rest := Filter(modules, n => Installable(states, n));
      && Sorted(SortStrings(rest))
      && multiset(SortStrings(rest)) == multiset(rest)
      && forall n :: n in rest <==> n in modules && Installable(states, n)
  {
    var rest := Filter(modules, n => Installable(states, n));
    SortStringsProperties(rest);
    forall n | n in modules && Installable(states, n)
      ensures n in rest
    {
      var k :| 0 <= k < |modules| && modules[k] == n;
    }
  }
}
