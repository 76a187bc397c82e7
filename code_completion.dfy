/**
 * `CodeCompletionAssistant`: a fixed table of Python snippets, offered by
 * trigger prefix (`suggest_completion`) or chosen from the name of the
 * function being written (`generate_context_aware_suggestion`).
 */
module CodeCompletion {
  import opened Wrappers
  import opened Text
  import opened Json

  const PrintSnippet: string := "print(f\"{text}\")"
  const MainSnippet: string :=
    "\ndef main():\n    {cursor}\n\nif __name__ == \"__main__\":\n    main()\n"
  const ClassSnippet: string :=
    "\nclass {ClassName}:\n    '''{ClassName}'''\n\n    def __init__(self):\n        self.{cursor} = None\n\n    def {method}(self):\n        pass\n"
  const TrySnippet: string :=
    "\ntry:\n    {cursor}\nexcept {Exception}:\n    raise\nfinally:\n    pass\n"

  /** `PYTHON_SNIPPETS`: trigger and code, in the dict's insertion order. */
  const PythonSnippets: seq<(string, string)> := [
    ("fprint", PrintSnippet),
    ("fmain", MainSnippet),
    ("fclass", ClassSnippet),
    ("ftry", TrySnippet)
  ]

  /** The codes of the entries whose trigger `prefix` starts with, in table order. */
  function Matching(table: seq<(string, string)>, prefix: string): seq<string> {
    if table == [] then []
    else (if StartsWith(prefix, table[0].0) then [table[0].1] else []) + Matching(table[1..], prefix)
  }

  /**
   * `suggest_completion`. Only Python has snippets, and Python is the
   * language when none is given: for it, the snippets whose trigger starts
   * `prefix`, in table order; for any other language, none.
   */
  method SuggestCompletion(prefix: string, language: string := "python") returns (suggestions: seq<string>)
    ensures Lower(language) == "python" ==> suggestions == Matching(PythonSnippets, prefix)
    ensures Lower(language) != "python" ==> suggestions == []
  {
    if Lower(language) == "python" {
      suggestions := [];
      var snippets := PythonSnippets;
      for i := 0 to |snippets|
        invariant suggestions == Matching(snippets[..i], prefix)
      {
        var (trigger, code) := snippets[i];
        if StartsWith(prefix, trigger) {
          suggestions := suggestions + [code];
        }
        MatchingSnoc(snippets, prefix, i);
      }
      assert snippets[..|snippets|] == snippets;
      return suggestions;
    }
    return [];
  }

  lemma {:induction false} MatchingSnoc(table: seq<(string, string)>, prefix: string, i: nat)
    requires i < |table|
    ensures Matching(table[..i + 1], prefix)
         == Matching(table[..i], prefix) + (if StartsWith(prefix, table[i].0) then [table[i].1] else [])
  {
    if i > 0 {
      var t := table[1..];
      assert table[..i + 1][1..] == t[..i];
      assert table[..i][1..] == t[..i - 1];
      MatchingSnoc(t, prefix, i - 1);
    } else {
      assert table[..1][1..] == [];
    }
  }

  /** A code is offered exactly when an entry holding it has a trigger that starts `prefix`. */
  lemma {:induction false} MatchingMembers(table: seq<(string, string)>, prefix: string, code: string)
    ensures code in Matching(table, prefix) <==>
      exists k :: 0 <= k < |table| && table[k].1 == code && StartsWith(prefix, table[k].0)
  {
    if table != [] {
      MatchingMembers(table[1..], prefix, code);
      if k :| 0 <= k < |table| && table[k].1 == code && StartsWith(prefix, table[k].0) {
        if k > 0 {
          assert table[1..][k - 1] == table[k];
        }
      }
      if k :| 0 <= k < |table[1..]| && table[1..][k].1 == code && StartsWith(prefix, table[1..][k].0) {
        assert table[k + 1] == table[1..][k];
      }
    }
  }

  /** No trigger of the table starts another. */
  predicate PrefixFree(table: seq<(string, string)>) {
    forall i, j :: 0 <= i < |table| && 0 <= j < |table| && i != j ==> !StartsWith(table[j].0, table[i].0)
  }

  /** Two triggers that both start the same text: the shorter starts the longer. */
  lemma BothStart(prefix: string, a: string, b: string)
    requires StartsWith(prefix, a) && StartsWith(prefix, b) && |a| <= |b|
    ensures StartsWith(b, a)
  {
    assert b[..|a|] == prefix[..|b|][..|a|];
  }

  /** With prefix-free triggers, at most one snippet is offered. */
  lemma {:induction false} AtMostOneMatch(table: seq<(string, string)>, prefix: string)
    requires PrefixFree(table)
    ensures |Matching(table, prefix)| <= 1
  {
    if table != [] {
      var rest := table[1..];
      assert PrefixFree(rest) by {
        forall i, j | 0 <= i < |rest| && 0 <= j < |rest| && i != j
          ensures !StartsWith(rest[j].0, rest[i].0)
        {
          assert rest[i] == table[i + 1] && rest[j] == table[j + 1];
        }
      }
      AtMostOneMatch(rest, prefix);
      if StartsWith(prefix, table[0].0) {
        NoneAfter(table, prefix);
      }
    }
  }

  lemma NoneAfter(table: seq<(string, string)>, prefix: string)
    requires table != [] && PrefixFree(table) && StartsWith(prefix, table[0].0)
    ensures Matching(table[1..], prefix) == []
  {
    var rest := table[1..];
    forall k | 0 <= k < |rest|
      ensures !StartsWith(prefix, rest[k].0)
    {
      assert rest[k] == table[k + 1];
      if StartsWith(prefix, rest[k].0) {
        if |table[0].0| <= |rest[k].0| {
          BothStart(prefix, table[0].0, rest[k].0);
        } else {
          BothStart(prefix, rest[k].0, table[0].0);
        }
      }
    }
    NoMatch(rest, prefix);
  }

  lemma {:induction false} NoMatch(table: seq<(string, string)>, prefix: string)
    requires forall k :: 0 <= k < |table| ==> !StartsWith(prefix, table[k].0)
    ensures Matching(table, prefix) == []
  {
    if table != [] {
      NoMatch(table[1..], prefix);
    }
  }

  /** The Python triggers `fprint`, `fmain`, `fclass`, `ftry`: none starts another. */
  lemma PythonTriggersPrefixFree()
    ensures PrefixFree(PythonSnippets)
  {
    var t := PythonSnippets;
    forall i, j | 0 <= i < |t| && 0 <= j < |t| && i != j
      ensures !StartsWith(t[j].0, t[i].0)
    {
      if |t[i].0| <= |t[j].0| {
        assert t[j].0[..|t[i].0|] != t[i].0 by {
          assert t[i].0[1] != t[j].0[1] || t[i].0[2] != t[j].0[2];
        }
      }
    }
  }

  /** For Python at most one snippet is offered, and any language offers at most that. */
  lemma AtMostOneSuggestion(prefix: string)
    ensures |Matching(PythonSnippets, prefix)| <= 1
  {
    PythonTriggersPrefixFree();
    AtMostOneMatch(PythonSnippets, prefix);
  }

  /**
   * `generate_context_aware_suggestion`. The context must be a dict; its
   * `function_name` (the empty string when absent) is tested with `in`,
   * first for `main`, then for `class`. A name that is neither a string, a
   * list nor a dict cannot be searched and raises `TypeError`.
   */
  function ContextAwareSuggestion(context: Json): (r: Result<string, PyError>)
    ensures r.Err? <==> (!context.JObj? ||
      var name := Get(context, "function_name", JStr("")).value;
      !(name.JStr? || name.JArr? || name.JObj?))
    ensures !context.JObj? ==> r == Err(AttributeError)
    ensures context.JObj? && r.Err? ==> r.error == TypeError
    ensures r.Ok? ==> r.value in {MainSnippet, ClassSnippet, ""}
  {
    // `context.get("parameters", [])` is read but never used; once the
    // first `get` has succeeded it cannot raise either.
    var functionName :- Get(context, "function_name", JStr(""));
    var hasMain :- In("main", functionName);
    if hasMain then Ok(MainSnippet)
    else if In("class", functionName) == Ok(true) then Ok(ClassSnippet)
    else Ok("")
  }

  /**
   * For a string function name: the main snippet when `main` occurs in it,
   * otherwise the class snippet when `class` does, otherwise nothing.
   */
  lemma SuggestionByName(fields: seq<(string, Json)>, name: string)
    requires Lookup(fields, "function_name") == Some(JStr(name))
    ensures ContextAwareSuggestion(JObj(fields)) ==
      Ok(if exists i :: OccursAt(name, "main", i) then MainSnippet
         else if exists i :: OccursAt(name, "class", i) then ClassSnippet
         else "")
  {
    ContainsAt(name, "main");
    ContainsAt(name, "class");
  }

  /** A context without a function name suggests nothing. */
  lemma NoNameNoSuggestion(fields: seq<(string, Json)>)
    requires Lookup(fields, "function_name") == None
    ensures ContextAwareSuggestion(JObj(fields)) == Ok("")
  {
  }

  /** `main` wins over `class`. */
  lemma MainBeforeClass()
    ensures ContextAwareSuggestion(JObj([("function_name", JStr("main_class"))])) == Ok(MainSnippet)
  {
    var a := "main_class";
    assert OccursAt(a, "main", 0);
    SuggestionByName([("function_name", JStr(a))], a);
  }

  /** The match is case-sensitive: `MyClass` suggests nothing. */
  lemma CaseSensitive()
    ensures ContextAwareSuggestion(JObj([("function_name", JStr("MyClass"))])) == Ok("")
  {
    var b := "MyClass";
    Absent(b, "main");
    ContainsAt(b, "main");
    Absent(b, "class");
    ContainsAt(b, "class");
    SuggestionByName([("function_name", JStr(b))], b);
  }

  /** A list of names is searched for an element equal to `main` or `class`. */
  lemma NameList()
    ensures ContextAwareSuggestion(JObj([("function_name", JArr([JStr("class")]))])) == Ok(ClassSnippet)
    ensures ContextAwareSuggestion(JObj([("function_name", JArr([JStr("main_loop")]))])) == Ok("")
  {
    assert JStr("main") != JStr("main_loop") by { assert "main" != "main_loop"; }
  }

  /** A name that is a number cannot be searched; a context that is not a dict has no `get`. */
  lemma SuggestionErrors()
    ensures ContextAwareSuggestion(JObj([("function_name", JNum(7))])) == Err(TypeError)
    ensures ContextAwareSuggestion(JArr([])) == Err(AttributeError)
  {
  }

  /** A prefix that extends a trigger gets its snippet; a bare `f` gets none. */
  lemma CompletionExamples()
    ensures Matching(PythonSnippets, "fmain()") == [MainSnippet]
    ensures Matching(PythonSnippets, "f") == []
  {
    var t := PythonSnippets;
    assert StartsWith("fmain()", "fmain");
    assert !StartsWith("fmain()", "fprint") by { assert "fmain()"[1] != "fprint"[1]; }
    assert !StartsWith("fmain()", "fclass") by { assert "fmain()"[1] != "fclass"[1]; }
    assert !StartsWith("fmain()", "ftry") by { assert "fmain()"[1] != "ftry"[1]; }
    var p := "fmain()";
    assert t[1..][1..] == [t[2], t[3]];
    NoMatch(t[1..][1..], p);
    assert Matching(t[1..], p) == [MainSnippet] + Matching(t[1..][1..], p);
    assert Matching(t, p) == Matching(t[1..], p);
    NoMatch(t, "f");
  }
}
