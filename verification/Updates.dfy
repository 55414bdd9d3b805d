// From a plan to the file on disk: what the script built for a plan's override
// writes when it is run.
module Updates {
  import opened Seqs
  import opened StackPlan
  import Shell
  import Sorting
  import Text

  lemma {:induction false} LastReplaced(s: string)
    requires s != "" && s[|s| - 1] != '\n'
    ensures var r := Shell.ReplaceAll(s, Shell.EOF, Shell.SAFE); r != "" && r[|r| - 1] != '\n'
    decreases |s|
  {
    var n := if Shell.EOF <= s then |Shell.EOF| else 1;
    var rest := s[n..];
    if rest != "" {
      LastReplaced(rest);
    }
  }

  // One newline at the end, and not two
  predicate EndsOnce(text: string) {
    |text| >= 2 && text[|text| - 1] == '\n' && text[|text| - 2] != '\n'
  }

  lemma RenderedEnds(plan: seq<Entry>)
    requires OneLiners(plan)
    ensures EndsOnce(Rendered(plan))
  {
    hide OneLine;
    var sorted := Sorting.Sort(plan, ByService());
    Sorting.SortPermutes(plan, ByService());
    OneLinersPermuted(plan, sorted);
    if sorted != [] {
      var e := sorted[|sorted| - 1];
      assert OneLine(e);
      LineEnds(HEADER + Lines(sorted, |sorted| - 1), e);
      assert Rendered(plan) == HEADER + Lines(sorted, |sorted| - 1) + Line(e);
    } else {
      HeaderEnds();
      assert Rendered(plan) == HEADER;
    }
  }

  lemma HeaderEnds()
    ensures EndsOnce(HEADER)
  {
  }

  lemma LineEnds(before: string, e: Entry)
    requires OneLine(e)
    ensures EndsOnce(before + Line(e))
  {
    var text := before + Line(e);
    assert text == before + ("  " + e.service + ":\n    image: ") + e.image + "\n";
    if e.image != "" {
      assert text[|text| - 2] == e.image[|e.image| - 1] && e.image[|e.image| - 1] in e.image;
    }
  }

  lemma WrittenOnce(text: string, content: string)
    requires EndsOnce(text) && Shell.OneNewline(Shell.ReplaceAll(text, Shell.EOF, Shell.SAFE), content)
    ensures content == text <==> !Shell.Contains(text, Shell.EOF)
  {
    hide Shell.Contains, Shell.ReplaceAll;
    var front := text[..|text| - 1];
    var replaced := Shell.ReplaceAll(front, Shell.EOF, Shell.SAFE);
    assert text == front + "\n" + "";
    Shell.ReplaceLine(front, "", Shell.EOF, Shell.SAFE);
    Shell.ReplaceNothing("", Shell.EOF, Shell.SAFE) by { EmptyContains(); }
    LastReplaced(front);
    assert Shell.ReplaceAll(text, Shell.EOF, Shell.SAFE) == replaced + "\n";
    Single(replaced);
    Shell.OneNewlineUnique(replaced + "\n", content, replaced + "\n");
    Shell.ReplaceGrows(text, Shell.EOF, Shell.SAFE);
    if !Shell.Contains(text, Shell.EOF) {
      Shell.ReplaceNothing(text, Shell.EOF, Shell.SAFE);
    }
  }

  // A text comes out of the here-document unchanged exactly when it ends in one
  // newline and does not contain the delimiter.
  lemma WrittenExactly(text: string, content: string)
    requires |text| >= 2 && Shell.OneNewline(Shell.ReplaceAll(text, Shell.EOF, Shell.SAFE), content)
    ensures content == text <==> EndsOnce(text) && !Shell.Contains(text, Shell.EOF)
  {
    hide Shell.Contains, Shell.ReplaceAll;
    if EndsOnce(text) {
      WrittenOnce(text, content);
    }
  }

  lemma EmptyContains()
    ensures !Shell.Contains("", Shell.EOF)
  {
  }

  lemma Single(t: string)
    requires t != "" && t[|t| - 1] != '\n'
    ensures Shell.OneNewline(t + "\n", t + "\n")
  {
    assert (t + "\n")[..|t|] == t;
  }

  // Running the script writes exactly the plan's rendered override if and only
  // if that ends in one newline and does not contain the delimiter.  When all
  // services and images are one line each it does end so, and the file then
  // reads back as the plan's images.
  lemma PlanIsWritten(plan: seq<Entry>, changed: seq<string>, env: string -> string)
    ensures var r := Shell.RunScript(Shell.Snippet(Rendered(plan), changed), env);
            && r.Some? && r.value.path == env("WORKING_DIR") + "/docker-compose.override.yml"
            && (r.value.content == Rendered(plan) <==>
                  EndsOnce(Rendered(plan)) && !Shell.Contains(Rendered(plan), Shell.EOF))
            && (OneLiners(plan) ==> EndsOnce(Rendered(plan)))
            && (OneLiners(plan) && !Shell.Contains(Rendered(plan), Shell.EOF) ==>
                  ReadOverride(r.value.content) == Some(Images(Sorting.Sort(plan, ByService()))))
  {
    hide Shell.RunScript, Shell.Snippet, Shell.Contains, Shell.OneNewline, Shell.ReplaceAll;
    hide Rendered, OneLiners, ReadOverride;
    Shell.SnippetReads(Rendered(plan), changed, env);
    LongEnough(plan);
    if OneLiners(plan) {
      RenderedEnds(plan);
    }
    OverrideReads(plan);
    WrittenExactly(Rendered(plan), Shell.RunScript(Shell.Snippet(Rendered(plan), changed), env).value.content);
  }

  lemma LongEnough(plan: seq<Entry>)
    ensures |Rendered(plan)| >= 2
  {
    HeaderEnds();
  }
}
