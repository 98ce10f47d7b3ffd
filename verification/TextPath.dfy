/** The ancestors of a path that is only a text: the text with trailing components removed. */
module TextPath {

  // ----- ancestors, component by component -----

  function TrimRight(text: string): (r: string)
    ensures |r| <= |text|
  {
    if |text| > 1 && text[|text| - 1] == '/' then TrimRight(text[..|text| - 1])
    else if |text| >= 2 && text[|text| - 1] == '.' && text[|text| - 2] == '/' then TrimRight(text[..|text| - 1])
    else text
  }

  function DropComponent(text: string): (r: string)
    ensures |r| <= |text|
  {
    if text == "" || text[|text| - 1] == '/' then text else DropComponent(text[..|text| - 1])
  }

  /** The texts of every proper ancestor, nearest first. */
  function TextAncestors(text: string): (r: seq<string>)
    decreases |text|
  {
    var trimmed := TrimRight(text);
    if trimmed == "" || trimmed == "/" || trimmed[|trimmed| - 1] == '/' then []
    else
      var parent := TrimRight(DropComponent(trimmed[..|trimmed| - 1]));
      [parent] + TextAncestors(parent)
  }

  // ----- what they are, by separators alone -----

  /** A component ends before `k`: a name up to a separator or the end of the text. A lone dot after a separator is no
      component. */
  predicate EndsComponent(text: string, k: nat) {
    && 0 < k <= |text| && text[k - 1] != '/' && (k == |text| || text[k] == '/')
    && !(k >= 2 && text[k - 1] == '.' && text[k - 2] == '/')
  }

  /** The text cut at `j` is a proper ancestor: the root or the empty start, or some whole components, with more to come. */
  predicate IsCut(text: string, j: nat) {
    && j <= |text|
    && (j == (if text != "" && text[0] == '/' then 1 else 0) || EndsComponent(text, j))
    && exists k: nat :: j < k <= |text| && EndsComponent(text, k)
  }

  predicate IsAncestorText(text: string, ancestor: string) {
    ancestor <= text && IsCut(text, |ancestor|)
  }

  lemma {:induction false} TrimKeepsEnds(text: string)
    ensures TrimRight(text) <= text && (text != "" ==> TrimRight(text) != "")
    ensures forall k: nat :: EndsComponent(TrimRight(text), k) <==> EndsComponent(text, k)
    ensures TrimRight(text) !in ["", "/"] ==> EndsComponent(TrimRight(text), |TrimRight(text)|)
  {
    var shorter := if text == "" then "" else text[..|text| - 1];
    if |text| > 1 && (text[|text| - 1] == '/' || (text[|text| - 1] == '.' && text[|text| - 2] == '/')) {
      TrimKeepsEnds(shorter);
      forall k: nat ensures EndsComponent(shorter, k) <==> EndsComponent(text, k) {
      }
    } else if text != "" && text[|text| - 1] == '/' {
      assert text == "/";
    }
  }

  lemma {:induction false} DropKeepsEnds(text: string)
    ensures var d := DropComponent(text);
      && d <= text && (d == "" || d[|d| - 1] == '/') && '/' !in text[|d|..]
  {
    if text != "" && text[|text| - 1] != '/' {
      DropKeepsEnds(text[..|text| - 1]);
      var d := DropComponent(text);
      assert text[|d|..] == text[..|text| - 1][|d|..] + [text[|text| - 1]];
    }
  }

  /** The parent of a trimmed text has all its component ends but the last. */
  lemma ParentEnds(text: string)
    requires text !in ["", "/"] && EndsComponent(text, |text|)
    ensures var parent := TrimRight(DropComponent(text[..|text| - 1]));
      && parent < text && (parent == "" <==> text[0] != '/' && '/' !in text)
      && forall k: nat :: EndsComponent(text, k) <==> k == |text| || EndsComponent(parent, k)
  {
    var front := text[..|text| - 1];
    var d := DropComponent(front);
    DropKeepsEnds(front);
    TrimKeepsEnds(d);
    forall k: nat | k < |text| ensures EndsComponent(text, k) <==> EndsComponent(d, k) {
    }
    if d == "" {
      assert front[0..] == front;
      assert text == front + [text[|text| - 1]];
    } else {
      assert text[|d| - 1] == '/';
    }
  }

  lemma CutsOfParent(text: string, parent: string, j: nat)
    requires text !in ["", "/"] && EndsComponent(text, |text|) && parent == TrimRight(DropComponent(text[..|text| - 1]))
    ensures IsCut(text, j) <==> j == |parent| || IsCut(parent, j)
    ensures parent < text
  {
    hide TrimRight, DropComponent;
    ParentEnds(text);
    TrimKeepsEnds(DropComponent(text[..|text| - 1]));
    if parent !in ["", "/"] {
      assert EndsComponent(parent, |parent|);
      assert parent[0] == text[0];
    }
  }

  lemma TrimKeepsCuts(text: string, j: nat)
    ensures IsCut(text, j) <==> IsCut(TrimRight(text), j)
  {
    var trimmed := TrimRight(text);
    TrimKeepsEnds(text);
    hide TrimRight;
    if IsCut(text, j) {
      var k: nat :| j < k <= |text| && EndsComponent(text, k);
      assert EndsComponent(trimmed, k);
    }
    if IsCut(trimmed, j) {
      var k: nat :| j < k <= |trimmed| && EndsComponent(trimmed, k);
      assert EndsComponent(text, k);
    }
  }

  lemma RootHasNoCut(text: string, j: nat)
    requires text in ["", "/"]
    ensures !IsCut(text, j)
  {
  }

  function ParentText(trimmed: string): (r: string)
    requires trimmed != ""
  {
    TrimRight(DropComponent(trimmed[..|trimmed| - 1]))
  }

  lemma AncestorsUnfold(text: string)
    ensures TrimRight(text) in ["", "/"] ==> TextAncestors(text) == []
    ensures TrimRight(text) !in ["", "/"] ==>
      TextAncestors(text) == [ParentText(TrimRight(text))] + TextAncestors(ParentText(TrimRight(text)))
  {
    TrimKeepsEnds(text);
  }

  lemma CutsUnfold(text: string, j: nat)
    ensures TrimRight(text) in ["", "/"] ==> !IsCut(text, j)
    ensures TrimRight(text) !in ["", "/"] ==>
      && ParentText(TrimRight(text)) < text
      && (IsCut(text, j) <==> j == |ParentText(TrimRight(text))| || IsCut(ParentText(TrimRight(text)), j))
  {
    hide IsCut, EndsComponent, TrimRight, DropComponent;
    TrimKeepsEnds(text);
    TrimKeepsCuts(text, j);
    var trimmed := TrimRight(text);
    if trimmed in ["", "/"] {
      RootHasNoCut(trimmed, j);
    } else {
      CutsOfParent(trimmed, ParentText(trimmed), j);
      assert ParentText(trimmed) <= text;
    }
  }

  /** The ancestors of a text are exactly the texts it can be cut to, nearest first. */
  lemma {:induction false} TextAncestorsAreCuts(text: string)
    ensures forall t :: t in TextAncestors(text) <==> IsAncestorText(text, t)
    ensures forall m, n :: 0 <= m < n < |TextAncestors(text)| ==> |TextAncestors(text)[n]| < |TextAncestors(text)[m]|
    ensures forall t :: t in TextAncestors(text) ==> |t| < |text|
    decreases |text|
  {
    hide TextAncestors, TrimRight, ParentText, EndsComponent, IsCut;
    AncestorsUnfold(text);
    CutsUnfold(text, 0);
    forall j: nat
      ensures TrimRight(text) in ["", "/"] ==> !IsCut(text, j)
      ensures TrimRight(text) !in ["", "/"] ==>
        (IsCut(text, j) <==> j == |ParentText(TrimRight(text))| || IsCut(ParentText(TrimRight(text)), j))
    {
      CutsUnfold(text, j);
    }
    if TrimRight(text) !in ["", "/"] {
      var parent := ParentText(TrimRight(text));
      TextAncestorsAreCuts(parent);
      AncestorStep(text, parent, TextAncestors(parent));
    }
  }

  lemma AncestorStep(text: string, parent: string, ancestors: seq<string>)
    requires parent < text && forall j: nat :: IsCut(text, j) <==> j == |parent| || IsCut(parent, j)
    requires forall t :: t in ancestors <==> IsAncestorText(parent, t)
    ensures forall t :: t in [parent] + ancestors <==> IsAncestorText(text, t)
  {
    hide IsCut;
    forall t ensures t in [parent] + ancestors <==> IsAncestorText(text, t) {
      if t in ancestors {
        assert t == parent[..|t|] == text[..|t|];
      }
      if IsAncestorText(text, t) && t != parent {
        assert t == text[..|t|] && parent == text[..|parent|];
        CutIsShorter(parent, |t|);
      }
    }
  }

  lemma CutIsShorter(parent: string, j: nat)
    ensures IsCut(parent, j) ==> j < |parent|
  {
  }
}
