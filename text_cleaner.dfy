/**
  The text helpers of app/utils/text_cleaner.py: the skill abbreviation table, the
  whitespace normalisation (three regular-expression substitutions, each written out
  as a scan), the line-based resume section splitter and the empty-input guards of
  the two cleaners. The section-header regular expressions are a parameter:
  `classify` maps a lower-cased, stripped line to the section it introduces, if any.
 */
module TextCleaner {
  import opened Wrappers
  import opened Text
  import opened Collections

  // ---------------------------------------------------------------- normalize_skill

  /** The abbreviation table of `normalize_skill`, keyed by lower-case form. */
  const SkillTable: map<string, string> := map[
    "js" := "JavaScript", "ts" := "TypeScript", "py" := "Python", "c++" := "C++",
    "c#" := "C#", "node" := "Node.js", "react" := "React", "vue" := "Vue.js",
    "angular" := "Angular", "aws" := "AWS", "gcp" := "Google Cloud", "azure" := "Azure",
    "k8s" := "Kubernetes", "docker" := "Docker", "sql" := "SQL", "nosql" := "NoSQL",
    "ml" := "Machine Learning", "dl" := "Deep Learning", "ai" := "Artificial Intelligence",
    "nlp" := "NLP", "cv" := "Computer Vision"]

  /** `TextCleaner.normalize_skill` */
  function NormalizeSkill(skill: string): string {
    var s := Strip(skill);
    if Lower(s) in SkillTable then SkillTable[Lower(s)] else s
  }

  /** A table key, matched case-insensitively after stripping, gives its canonical name;
      any other skill comes back stripped. */
  lemma NormalizeSkillCases(skill: string)
    ensures Lower(Strip(skill)) in SkillTable ==> NormalizeSkill(skill) == SkillTable[Lower(Strip(skill))]
    ensures Lower(Strip(skill)) !in SkillTable ==> NormalizeSkill(skill) == Strip(skill)
    ensures IsStripped(NormalizeSkill(skill))
  {
    StripFacts(skill);
    if Lower(Strip(skill)) in SkillTable {
      SkillTableClosed(Lower(Strip(skill)));
    }
  }

  /** A canonical name is stripped, and it is either not a key or the key of itself. */
  predicate ClosedEntry(k: string)
    requires k in SkillTable
  {
    var v := SkillTable[k];
    IsStripped(v) && (Lower(v) in SkillTable ==> SkillTable[Lower(v)] == v)
  }

  /** No key of the table is longer than seven characters. */
  lemma LongNameIsNoKey(s: string)
    requires |s| > 7
    ensures s !in SkillTable
  {
  }

  /** The programming-language abbreviations. */
  lemma ClosedLanguages(k: string)
    requires k in ["js", "ts", "py", "c++", "c#"]
    ensures k in SkillTable && ClosedEntry(k)
  {
    if k == "js" { assert SkillTable[k] == "JavaScript"; LongNameIsNoKey(Lower("JavaScript")); }
    else if k == "ts" { assert SkillTable[k] == "TypeScript"; LongNameIsNoKey(Lower("TypeScript")); }
    else if k == "py" { assert SkillTable[k] == "Python"; assert Lower("Python") == "python"; }
    else if k == "c++" { assert SkillTable[k] == "C++"; assert Lower("C++") == "c++"; }
    else { assert SkillTable[k] == "C#"; assert Lower("C#") == "c#"; }
  }

  /** The framework abbreviations. */
  lemma ClosedFrameworks(k: string)
    requires k in ["node", "react", "vue", "angular"]
    ensures k in SkillTable && ClosedEntry(k)
  {
    if k == "node" { assert SkillTable[k] == "Node.js"; assert Lower("Node.js") == "node.js"; }
    else if k == "react" { assert SkillTable[k] == "React"; assert Lower("React") == "react"; }
    else if k == "vue" { assert SkillTable[k] == "Vue.js"; assert Lower("Vue.js") == "vue.js"; }
    else { assert SkillTable[k] == "Angular"; assert Lower("Angular") == "angular"; }
  }

  /** The cloud and container abbreviations. */
  lemma ClosedPlatforms(k: string)
    requires k in ["aws", "gcp", "azure", "k8s", "docker"]
    ensures k in SkillTable && ClosedEntry(k)
  {
    if k == "aws" { assert SkillTable[k] == "AWS"; assert Lower("AWS") == "aws"; }
    else if k == "gcp" { assert SkillTable[k] == "Google Cloud"; LongNameIsNoKey(Lower("Google Cloud")); }
    else if k == "azure" { assert SkillTable[k] == "Azure"; assert Lower("Azure") == "azure"; }
    else if k == "k8s" { assert SkillTable[k] == "Kubernetes"; LongNameIsNoKey(Lower("Kubernetes")); }
    else { assert SkillTable[k] == "Docker"; assert Lower("Docker") == "docker"; }
  }

  /** The database and field abbreviations. */
  lemma ClosedDataFields(k: string)
    requires k in ["sql", "nosql", "ml", "dl", "ai", "nlp", "cv"]
    ensures k in SkillTable && ClosedEntry(k)
  {
    if k == "sql" { assert SkillTable[k] == "SQL"; assert Lower("SQL") == "sql"; }
    else if k == "nosql" { assert SkillTable[k] == "NoSQL"; assert Lower("NoSQL") == "nosql"; }
    else if k == "ml" { assert SkillTable[k] == "Machine Learning"; LongNameIsNoKey(Lower("Machine Learning")); }
    else if k == "dl" { assert SkillTable[k] == "Deep Learning"; LongNameIsNoKey(Lower("Deep Learning")); }
    else if k == "ai" { assert SkillTable[k] == "Artificial Intelligence"; LongNameIsNoKey(Lower("Artificial Intelligence")); }
    else if k == "nlp" { assert SkillTable[k] == "NLP"; assert Lower("NLP") == "nlp"; }
    else { assert SkillTable[k] == "Computer Vision"; LongNameIsNoKey(Lower("Computer Vision")); }
  }

  /** Every entry of the table is closed. */
  lemma SkillTableClosed(k: string)
    requires k in SkillTable
    ensures ClosedEntry(k)
  {
    if k in ["js", "ts", "py", "c++", "c#"] { ClosedLanguages(k); }
    else if k in ["node", "react", "vue", "angular"] { ClosedFrameworks(k); }
    else if k in ["aws", "gcp", "azure", "k8s", "docker"] { ClosedPlatforms(k); }
    else if k in ["sql", "nosql", "ml", "dl", "ai", "nlp", "cv"] { ClosedDataFields(k); }
  }

  /** `normalize_skill` is idempotent. */
  lemma NormalizeSkillIdempotent(skill: string)
    ensures NormalizeSkill(NormalizeSkill(skill)) == NormalizeSkill(skill)
  {
    var n := NormalizeSkill(skill);
    NormalizeSkillCases(skill);
    StripOfStripped(n);
    if Lower(Strip(skill)) in SkillTable {
      SkillTableClosed(Lower(Strip(skill)));
    }
  }

  /** A padded abbreviation in any case maps to its canonical name. */
  lemma NormalizeSkillK8s()
    ensures NormalizeSkill(" K8s ") == "Kubernetes"
  {
    assert Strip(" K8s ") == "K8s" by {
      assert TrimLeft(" K8s ") == TrimLeft("K8s ") == "K8s ";
      assert TrimRight("K8s ") == TrimRight("K8s") == "K8s";
    }
    assert Lower("K8s") == "k8s";
  }

  // ---------------------------------------------------------- _normalize_whitespace

  predicate IsBlank(c: char) { c == ' ' || c == '\t' }

  /** No `a` is directly followed by `b`. */
  predicate NoPair(s: string, a: char, b: char) {
    forall i :: 0 <= i < |s| - 1 ==> !(s[i] == a && s[i + 1] == b)
  }

  lemma NoPairCons(c: char, t: string, a: char, b: char)
    ensures NoPair([c] + t, a, b) <==> NoPair(t, a, b) && !(c == a && t != [] && t[0] == b)
  {
    var s := [c] + t;
    assert forall i :: 0 <= i < |t| ==> s[i + 1] == t[i];
    if NoPair(t, a, b) && !(c == a && t != [] && t[0] == b) {
      forall i | 0 <= i < |s| - 1 ensures !(s[i] == a && s[i + 1] == b) {
        if i > 0 {
          assert s[i] == t[i - 1] && s[i + 1] == t[i];
        }
      }
    }
    if NoPair(s, a, b) {
      if t != [] {
        assert s[0] == c && s[1] == t[0];
      }
      forall i | 0 <= i < |t| - 1 ensures !(t[i] == a && t[i + 1] == b) {
        assert s[i + 1] == t[i] && s[i + 2] == t[i + 1];
      }
    }
  }

  /** `re.sub(r'[ \t]+', ' ', s)`; `inRun` says whether the character before `s` was a
      blank of the same run. */
  function SqueezeBlanks(s: string, inRun: bool): string
    decreases |s|
  {
    if s == [] then []
    else if IsBlank(s[0]) then (if inRun then [] else " ") + SqueezeBlanks(s[1..], true)
    else [s[0]] + SqueezeBlanks(s[1..], false)
  }

  /** `re.sub(r'\n{3,}', '\n\n', s)`; `run` counts the newlines directly before `s`. */
  function CapNewlines(s: string, run: nat): string
    decreases |s|
  {
    if s == [] then []
    else if s[0] == '\n' then (if run >= 2 then [] else "\n") + CapNewlines(s[1..], run + 1)
    else [s[0]] + CapNewlines(s[1..], 0)
  }

  /** `re.sub(r' +\n', '\n', s)`: a run of spaces is dropped when a newline follows it. */
  function DropSpacesBeforeNewline(s: string): string
    decreases |s|
  {
    if s == [] then []
    else
      var rest := DropSpacesBeforeNewline(s[1..]);
      if s[0] == ' ' && rest != [] && rest[0] == '\n' then rest else [s[0]] + rest
  }

  /** `TextCleaner._normalize_whitespace` */
  function NormalizeWhitespace(text: string): string {
    DropSpacesBeforeNewline(CapNewlines(SqueezeBlanks(text, false), 0))
  }

  lemma {:induction false} SqueezeBlanksFacts(s: string, inRun: bool)
    ensures |SqueezeBlanks(s, inRun)| <= |s|
    ensures '\t' !in SqueezeBlanks(s, inRun)
    ensures NoPair(SqueezeBlanks(s, inRun), ' ', ' ')
    ensures inRun && SqueezeBlanks(s, inRun) != [] ==> SqueezeBlanks(s, inRun)[0] != ' '
    decreases |s|
  {
    if s != [] {
      var t := s[1..];
      SqueezeBlanksFacts(t, IsBlank(s[0]));
      if IsBlank(s[0]) {
        if !inRun {
          NoPairCons(' ', SqueezeBlanks(t, true), ' ', ' ');
        }
      } else {
        NoPairCons(s[0], SqueezeBlanks(t, false), ' ', ' ');
      }
    }
  }

  lemma {:induction false} CapNewlinesFacts(s: string, run: nat)
    requires NoPair(s, ' ', ' ')
    ensures |CapNewlines(s, run)| <= |s|
    ensures forall c :: c in CapNewlines(s, run) ==> c in s
    ensures NoPair(CapNewlines(s, run), ' ', ' ')
    ensures run == 0 && s != [] ==> CapNewlines(s, run)[0] == s[0]
    decreases |s|
  {
    if s != [] {
      var t := s[1..];
      NoPairCons(s[0], t, ' ', ' ');
      var next: nat := if s[0] == '\n' then run + 1 else 0;
      CapNewlinesFacts(t, next);
      var rest := CapNewlines(t, next);
      if s[0] == '\n' {
        if run < 2 {
          NoPairCons('\n', rest, ' ', ' ');
        }
      } else {
        if t != [] {
          CapNewlinesFacts(t, 0);
        }
        NoPairCons(s[0], rest, ' ', ' ');
      }
    }
  }

  lemma {:induction false} DropSpacesFacts(s: string)
    requires NoPair(s, ' ', ' ')
    ensures |DropSpacesBeforeNewline(s)| <= |s|
    ensures forall c :: c in DropSpacesBeforeNewline(s) ==> c in s
    ensures NoPair(DropSpacesBeforeNewline(s), ' ', ' ')
    ensures NoPair(DropSpacesBeforeNewline(s), ' ', '\n')
    ensures s != [] && s[0] != ' ' ==> DropSpacesBeforeNewline(s)[0] == s[0]
    decreases |s|
  {
    if s != [] {
      var t := s[1..];
      NoPairCons(s[0], t, ' ', ' ');
      DropSpacesFacts(t);
      var rest := DropSpacesBeforeNewline(t);
      if !(s[0] == ' ' && rest != [] && rest[0] == '\n') {
        NoPairCons(s[0], rest, ' ', ' ');
        NoPairCons(s[0], rest, ' ', '\n');
      }
    }
  }

  /** After normalisation there is no tab, no two adjacent spaces and no space before a
      newline, and the text is never longer. */
  lemma NormalizeWhitespaceFacts(text: string)
    ensures var r := NormalizeWhitespace(text);
      && '\t' !in r
      && NoPair(r, ' ', ' ')
      && NoPair(r, ' ', '\n')
      && |r| <= |text|
  {
    var a := SqueezeBlanks(text, false);
    SqueezeBlanksFacts(text, false);
    var b := CapNewlines(a, 0);
    CapNewlinesFacts(a, 0);
    DropSpacesFacts(b);
  }

  /** Three newlines can survive: the space is removed after the newline runs were
      capped. */
  lemma ThreeNewlinesSurvive()
    ensures NormalizeWhitespace("\n\n \n") == "\n\n\n"
  {
    assert SqueezeBlanks("\n\n \n", false) == "\n\n \n" by {
      assert SqueezeBlanks("\n", false) == "\n";
      assert SqueezeBlanks(" \n", false) == " " + SqueezeBlanks("\n", true) == " \n";
      assert SqueezeBlanks("\n \n", false) == "\n \n";
    }
    assert CapNewlines("\n\n \n", 0) == "\n\n \n" by {
      assert CapNewlines("\n", 0) == "\n";
      assert CapNewlines(" \n", 2) == " \n";
      assert CapNewlines("\n \n", 1) == "\n \n";
    }
    assert DropSpacesBeforeNewline("\n\n \n") == "\n\n\n" by {
      assert DropSpacesBeforeNewline("\n") == "\n";
      assert DropSpacesBeforeNewline(" \n") == "\n";
      assert DropSpacesBeforeNewline("\n \n") == "\n\n";
    }
  }

  // ------------------------------------------------------------ clean_*_text guards

  /** `TextCleaner.clean_resume_text`; the artifact, encoding and page-marker
      substitutions are parameters. */
  function CleanResumeText(
    text: string, removeArtifacts: string -> string, fixEncoding: string -> string,
    removePageMarkers: string -> string): (r: string)
    ensures text == [] ==> r == []
    ensures IsStripped(r)
  {
    if text == [] then []
    else
      var cleaned := removePageMarkers(fixEncoding(removeArtifacts(NormalizeWhitespace(text))));
      StripFacts(cleaned);
      Strip(cleaned)
  }

  /** `TextCleaner.clean_jd_text`; the encoding and boilerplate substitutions are
      parameters. */
  function CleanJdText(text: string, fixEncoding: string -> string, removeBoilerplate: string -> string): (r: string)
    ensures text == [] ==> r == []
    ensures IsStripped(r)
  {
    if text == [] then []
    else
      var cleaned := removeBoilerplate(fixEncoding(NormalizeWhitespace(text)));
      StripFacts(cleaned);
      Strip(cleaned)
  }

  // ----------------------------------------------------------------- extract_sections

  datatype Section = Summary | Experience | Education | Skills | Projects | Certifications | Awards

  function SectionName(s: Section): string {
    match s
    case Summary => "summary"
    case Experience => "experience"
    case Education => "education"
    case Skills => "skills"
    case Projects => "projects"
    case Certifications => "certifications"
    case Awards => "awards"
  }

  const SectionNames: set<string> :=
    {"summary", "experience", "education", "skills", "projects", "certifications", "awards"}

  /** A line is a section header when the classifier recognises `line.lower().strip()`. */
  predicate IsHeader(classify: string -> Option<Section>, line: string) {
    classify(Strip(Lower(line))).Some?
  }

  /** A section as the splitter accumulates it: its name and the lines under it. */
  datatype Block = Block(name: string, content: seq<string>)

  /** One line of the scan: a header line opens a new block, any other line joins the
      current (last) block. */
  function Step(bs: seq<Block>, line: string, classify: string -> Option<Section>): (r: seq<Block>)
    requires |bs| >= 1
    ensures |r| >= 1
  {
    var found := classify(Strip(Lower(line)));
    if found.Some? then bs + [Block(SectionName(found.value), [])]
    else bs[..|bs| - 1] + [Block(bs[|bs| - 1].name, bs[|bs| - 1].content + [line])]
  }

  /** The blocks of a list of lines: a "header" block first, then one block per header
      line, each holding the non-header lines that follow it. */
  function Blocks(lines: seq<string>, classify: string -> Option<Section>): (bs: seq<Block>)
    ensures |bs| >= 1
    decreases |lines|
  {
    if lines == [] then [Block("header", [])]
    else Step(Blocks(lines[..|lines| - 1], classify), lines[|lines| - 1], classify)
  }

  /** A block with content sets its name to its stripped newline-join. */
  function Save(m: map<string, string>, b: Block): map<string, string> {
    if b.content == [] then m else m[b.name := Strip(Join(b.content, "\n"))]
  }

  /** The dictionary built from the blocks, later blocks overwriting earlier ones. */
  function Record(bs: seq<Block>): map<string, string>
    decreases |bs|
  {
    if bs == [] then map[] else Save(Record(bs[..|bs| - 1]), bs[|bs| - 1])
  }

  /** `TextCleaner.extract_sections` */
  method ExtractSections(text: string, classify: string -> Option<Section>) returns (sections: map<string, string>)
    ensures sections == Record(Blocks(Split(text, '\n'), classify))
  {
    var lines := Split(text, '\n');
    sections := map[];
    var current := "header";
    var content: seq<string> := [];
    ghost var done: seq<Block> := [];
    var i := 0;
    while i < |lines|
      invariant 0 <= i <= |lines|
      invariant Blocks(lines[..i], classify) == done + [Block(current, content)]
      invariant sections == Record(done)
    {
      var line := lines[i];
      ScanStep(lines, i, classify, done, Block(current, content));
      var found := classify(Strip(Lower(line)));
      if found.Some? {
        if content != [] {
          sections := sections[current := Strip(Join(content, "\n"))];
        }
        done := done + [Block(current, content)];
        current := SectionName(found.value);
        content := [];
      } else {
        content := content + [line];
      }
      i := i + 1;
    }
    assert lines[..i] == lines;
    RecordSnoc(done, Block(current, content));
    if content != [] {
      sections := sections[current := Strip(Join(content, "\n"))];
    }
  }

  /** One iteration of the scan, in terms of the blocks so far. */
  lemma ScanStep(lines: seq<string>, i: nat, classify: string -> Option<Section>, done: seq<Block>, b: Block)
    requires i < |lines| && Blocks(lines[..i], classify) == done + [b]
    ensures var found := classify(Strip(Lower(lines[i])));
      found.Some? ==> Blocks(lines[..i + 1], classify) == (done + [b]) + [Block(SectionName(found.value), [])]
    ensures classify(Strip(Lower(lines[i]))).None? ==>
      Blocks(lines[..i + 1], classify) == done + [Block(b.name, b.content + [lines[i]])]
    ensures Record(done + [b]) == Save(Record(done), b)
  {
    BlocksSnoc(lines, i, classify);
    StepAfter(done, b, lines[i], classify);
    RecordSnoc(done, b);
  }

  lemma BlocksSnoc(lines: seq<string>, i: nat, classify: string -> Option<Section>)
    requires i < |lines|
    ensures Blocks(lines[..i + 1], classify) == Step(Blocks(lines[..i], classify), lines[i], classify)
  {
    assert lines[..i + 1][..i] == lines[..i];
  }

  lemma StepAfter(done: seq<Block>, b: Block, line: string, classify: string -> Option<Section>)
    ensures var found := classify(Strip(Lower(line)));
      Step(done + [b], line, classify) ==
        if found.Some? then done + [b] + [Block(SectionName(found.value), [])]
        else done + [Block(b.name, b.content + [line])]
  {
    assert (done + [b])[..|done|] == done;
  }

  lemma RecordSnoc(done: seq<Block>, b: Block)
    ensures Record(done + [b]) == Save(Record(done), b)
  {
    assert (done + [b])[..|done|] == done;
  }

  /** A header line appends a block and keeps the others; any other line extends the
      last block and keeps the others. */
  lemma StepFacts(bs: seq<Block>, line: string, classify: string -> Option<Section>)
    requires |bs| >= 1
    ensures var r := Step(bs, line, classify);
      && (IsHeader(classify, line) ==>
            |r| == |bs| + 1 && r[..|bs|] == bs && r[|bs|].content == []
            && r[|bs|].name == SectionName(classify(Strip(Lower(line))).value))
      && (!IsHeader(classify, line) ==>
            |r| == |bs| && r[..|bs| - 1] == bs[..|bs| - 1]
            && r[|bs| - 1] == Block(bs[|bs| - 1].name, bs[|bs| - 1].content + [line]))
  {
  }

  /** The first block is "header" and every other block is named by a section. */
  lemma {:induction false} BlockNames(lines: seq<string>, classify: string -> Option<Section>)
    ensures var bs := Blocks(lines, classify);
      bs[0].name == "header" && forall k :: 0 < k < |bs| ==> bs[k].name in SectionNames
    decreases |lines|
  {
    if lines != [] {
      var init := lines[..|lines| - 1];
      BlockNames(init, classify);
      var bs0 := Blocks(init, classify);
      StepFacts(bs0, lines[|lines| - 1], classify);
      var line := lines[|lines| - 1];
      var bs := Blocks(lines, classify);
      forall k | 0 < k < |bs| ensures bs[k].name in SectionNames {
        if IsHeader(classify, line) {
          if k < |bs0| {
            assert bs[k] == bs[..|bs0|][k];
          }
        } else if k < |bs0| - 1 {
          assert bs[k] == bs[..|bs0| - 1][k];
        }
      }
      if IsHeader(classify, line) || |bs0| > 1 {
        assert bs[0] == bs0[0] by {
          if IsHeader(classify, line) {
            assert bs[0] == bs[..|bs0|][0];
          } else {
            assert bs[0] == bs[..|bs0| - 1][0];
          }
        }
      }
    }
  }

  /** No header line is kept as content. */
  lemma {:induction false} ContentIsNotHeader(lines: seq<string>, classify: string -> Option<Section>)
    ensures forall k, l :: 0 <= k < |Blocks(lines, classify)| && l in Blocks(lines, classify)[k].content ==>
      !IsHeader(classify, l)
    decreases |lines|
  {
    if lines != [] {
      var init := lines[..|lines| - 1];
      var line := lines[|lines| - 1];
      ContentIsNotHeader(init, classify);
      var bs0 := Blocks(init, classify);
      StepFacts(bs0, line, classify);
      var bs := Blocks(lines, classify);
      forall k, l | 0 <= k < |bs| && l in bs[k].content ensures !IsHeader(classify, l) {
        if IsHeader(classify, line) {
          assert k < |bs0|;
          assert bs[k] == bs[..|bs0|][k] == bs0[k];
        } else if k < |bs0| - 1 {
          assert bs[k] == bs[..|bs0| - 1][k] == bs0[k];
        } else if l != line {
          assert bs[k].content == bs0[|bs0| - 1].content + [line];
          assert l in bs0[|bs0| - 1].content;
        }
      }
    }
  }

  /** The lines under each block, block after block. */
  function Contents(bs: seq<Block>): seq<string>
    decreases |bs|
  {
    if bs == [] then [] else Contents(bs[..|bs| - 1]) + bs[|bs| - 1].content
  }

  /** The contents of the blocks are exactly the non-header lines, in order, and there is
      one block per header line besides the first. */
  lemma {:induction false} BlockContents(lines: seq<string>, classify: string -> Option<Section>)
    ensures var bs := Blocks(lines, classify);
      && Contents(bs) == Filter(lines, (l: string) => !IsHeader(classify, l))
      && |bs| == 1 + |Filter(lines, (l: string) => IsHeader(classify, l))|
    decreases |lines|
  {
    if lines != [] {
      var init := lines[..|lines| - 1];
      var line := lines[|lines| - 1];
      BlockContents(init, classify);
      assert lines == init + [line];
      FilterAppend(init, [line], (l: string) => !IsHeader(classify, l));
      FilterAppend(init, [line], (l: string) => IsHeader(classify, l));
      ContentsStep(Blocks(init, classify), line, classify);
    }
  }

  /** A header line adds no content; any other line is added at the end. */
  lemma ContentsStep(bs: seq<Block>, line: string, classify: string -> Option<Section>)
    requires |bs| >= 1
    ensures IsHeader(classify, line) ==> Contents(Step(bs, line, classify)) == Contents(bs)
    ensures !IsHeader(classify, line) ==> Contents(Step(bs, line, classify)) == Contents(bs) + [line]
  {
    StepFacts(bs, line, classify);
    var r := Step(bs, line, classify);
    var last := bs[|bs| - 1];
    if IsHeader(classify, line) {
      assert r[..|r| - 1] == bs;
    } else {
      assert r[..|r| - 1] == bs[..|bs| - 1];
      assert Contents(bs) == Contents(bs[..|bs| - 1]) + last.content;
    }
  }

  /** The first block of `bs` holds exactly the lines of `lines` before its first header. */
  predicate LeadsWith(lines: seq<string>, bs: seq<Block>, classify: string -> Option<Section>)
    requires |bs| >= 1
  {
    var k := |bs[0].content|;
    && k <= |lines|
    && bs[0].content == lines[..k]
    && (forall i :: 0 <= i < k ==> !IsHeader(classify, lines[i]))
    && (k < |lines| ==> IsHeader(classify, lines[k]))
    && (|bs| == 1 <==> k == |lines|)
  }

  /** One more line keeps the first block the run of leading non-header lines. */
  lemma LeadingStep(lines: seq<string>, bs: seq<Block>, classify: string -> Option<Section>)
    requires lines != [] && |bs| >= 1 && LeadsWith(lines[..|lines| - 1], bs, classify)
    ensures LeadsWith(lines, Step(bs, lines[|lines| - 1], classify), classify)
  {
    var init := lines[..|lines| - 1];
    var line := lines[|lines| - 1];
    StepFacts(bs, line, classify);
    var r := Step(bs, line, classify);
    assert forall i :: 0 <= i < |init| ==> lines[i] == init[i];
    if IsHeader(classify, line) {
      assert r[0] == r[..|bs|][0];
    } else if |bs| == 1 {
      assert bs[0].content == init;
      assert lines == init + [line];
    } else {
      assert r[0] == r[..|bs| - 1][0];
    }
  }

  /** The lines before the first header line are the content of the "header" block. */
  lemma {:induction false} LeadingLines(lines: seq<string>, classify: string -> Option<Section>)
    ensures LeadsWith(lines, Blocks(lines, classify), classify)
    decreases |lines|
  {
    if lines != [] {
      LeadingLines(lines[..|lines| - 1], classify);
      LeadingStep(lines, Blocks(lines[..|lines| - 1], classify), classify);
    }
  }

  /** The position of the last block named `key` that has content. */
  function LastWith(bs: seq<Block>, key: string): (r: Option<nat>)
    ensures r.Some? ==>
      && r.value < |bs| && bs[r.value].name == key && bs[r.value].content != []
      && forall l :: r.value < l < |bs| ==> !(bs[l].name == key && bs[l].content != [])
    ensures r.None? ==> forall l :: 0 <= l < |bs| ==> !(bs[l].name == key && bs[l].content != [])
    decreases |bs|
  {
    if bs == [] then None
    else if bs[|bs| - 1].name == key && bs[|bs| - 1].content != [] then Some(|bs| - 1)
    else
      var r := LastWith(bs[..|bs| - 1], key);
      assert forall l :: 0 <= l < |bs| - 1 ==> bs[..|bs| - 1][l] == bs[l];
      r
  }

  /** A name is recorded exactly when some block under it has content, and its value is
      the stripped newline-join of the last such block. */
  lemma {:induction false} RecordLookup(bs: seq<Block>, key: string)
    ensures key in Record(bs) <==> LastWith(bs, key).Some?
    ensures key in Record(bs) ==>
      Record(bs)[key] == Strip(Join(bs[LastWith(bs, key).value].content, "\n"))
    decreases |bs|
  {
    if bs != [] {
      var init := bs[..|bs| - 1];
      RecordLookup(init, key);
      if LastWith(init, key).Some? {
        assert bs[LastWith(init, key).value] == init[LastWith(init, key).value];
      }
    }
  }

  /** The keys of `extract_sections` are "header" and the seven section names. */
  lemma ExtractSectionsKeys(lines: seq<string>, classify: string -> Option<Section>)
    ensures forall key :: key in Record(Blocks(lines, classify)) ==> key == "header" || key in SectionNames
  {
    var bs := Blocks(lines, classify);
    BlockNames(lines, classify);
    forall key | key in Record(bs) ensures key == "header" || key in SectionNames {
      RecordLookup(bs, key);
      var k := LastWith(bs, key).value;
      assert bs[k].name == key;
    }
  }
}
