/**
 * The main menu: an ordered table from one-letter keys to actions, and the
 * loop that reads answers until one of them, lower-cased and stripped, is a
 * key of the table.
 */
module Menu {
  import opened Wrappers
  import opened Text

  datatype Action = ViewProduct | FullView | AddProduct | MakeBackup | Quit

  /** The menu's keys and actions, in display order. */
  const MenuTable: seq<(string, Action)> :=
    [("v", ViewProduct), ("e", FullView), ("a", AddProduct), ("b", MakeBackup), ("q", Quit)]

  /** The action filed under a key: the first entry with that key, if any. */
  function Lookup(table: seq<(string, Action)>, key: string): (r: Option<Action>)
    ensures r.Some? <==> exists i :: 0 <= i < |table| && table[i].0 == key
    ensures r.Some? ==> exists i :: 0 <= i < |table| && table[i] == (key, r.value)
  {
    if table == [] then None
    else if table[0].0 == key then Some(table[0].1)
    else
      var r := Lookup(table[1..], key);
      assert forall i :: 1 <= i < |table| ==> table[i] == table[1..][i - 1];
      r
  }

  /**
   * An answer as the menu compares it: lower-cased, then stripped. What is
   * left holds no upper-case letter and neither starts nor ends with
   * whitespace.
   */
  function Normalize(line: string): (key: string)
    ensures |key| <= |line|
    ensures forall i :: 0 <= i < |key| ==> !('A' <= key[i] <= 'Z')
    ensures key != [] ==> !IsSpace(key[0]) && !IsSpace(key[|key| - 1])
  {
    var l := Lower(line);
    StripLeftSpec(l, IsSpace);
    StripRightSpec(StripLeft(l, IsSpace), IsSpace);
    Strip(l, IsSpace)
  }

  /** The action an answer selects: one exactly when the answer, normalised, is a menu key. */
  function Dispatch(line: string): (r: Option<Action>)
    ensures r.Some? <==> Normalize(line) in ["v", "e", "a", "b", "q"]
  {
    MenuKeys(Normalize(line));
    Lookup(MenuTable, Normalize(line))
  }

  /**
   * What the normalised answer is: a stretch of the lower-cased answer with
   * only whitespace cut away before it and after it.
   */
  lemma NormalizeIsLowerStripped(line: string)
    ensures var l, key := Lower(line), Normalize(line);
      exists a, b :: && 0 <= a <= b <= |l|
                     && key == l[a..b]
                     && (forall i :: 0 <= i < a ==> IsSpace(l[i]))
                     && (forall i :: b <= i < |l| ==> IsSpace(l[i]))
  {
    var l, key := Lower(line), Normalize(line);
    var left := StripLeft(l, IsSpace);
    StripLeftSpec(l, IsSpace);
    StripRightSpec(left, IsSpace);
    var a := |l| - |left|;
    var b := a + |key|;
    assert left == l[a..];
    assert key == left[..|key|];
    assert key == l[a..b];
    forall i | b <= i < |l| ensures IsSpace(l[i]) {
      assert l[i] == left[i - a];
    }
  }

  /** An answer selects an action exactly when the menu files that action under the normalised answer. */
  lemma DispatchSelects(line: string, act: Action)
    ensures Dispatch(line) == Some(act) <==> (Normalize(line), act) in MenuTable
  {
  }

  /** Exactly the five keys v, e, a, b and q select an action, each its own. */
  lemma MenuKeys(key: string)
    ensures Lookup(MenuTable, key).Some? <==> key in ["v", "e", "a", "b", "q"]
    ensures key == "v" ==> Lookup(MenuTable, key) == Some(ViewProduct)
    ensures key == "e" ==> Lookup(MenuTable, key) == Some(FullView)
    ensures key == "a" ==> Lookup(MenuTable, key) == Some(AddProduct)
    ensures key == "b" ==> Lookup(MenuTable, key) == Some(MakeBackup)
    ensures key == "q" ==> Lookup(MenuTable, key) == Some(Quit)
  {
    assert MenuTable[0].0 == "v" && MenuTable[1].0 == "e" && MenuTable[2].0 == "a";
    assert MenuTable[3].0 == "b" && MenuTable[4].0 == "q";
  }

  /**
   * Case does not matter: two answers that agree letter for letter once
   * lower-cased select the same action.
   */
  lemma DispatchIgnoresCase(a: string, b: string)
    requires |a| == |b|
    requires forall i :: 0 <= i < |a| ==> LowerChar(a[i]) == LowerChar(b[i])
    ensures Dispatch(a) == Dispatch(b)
  {
    assert Lower(a) == Lower(b);
  }

  /** Case and surrounding whitespace do not matter: " Q" and a newline selects quit. */
  lemma DispatchPaddedExample()
    ensures Dispatch(" Q\n") == Some(Quit)
  {
    var l := Lower(" Q\n");
    assert l[0] == ' ' && l[1] == 'q' && l[2] == '\n';
    assert l == " q\n";
    assert StripLeft(l, IsSpace) == "q\n" by {
      assert l[1..] == "q\n";
      assert StripLeft("q\n", IsSpace) == "q\n";
    }
    assert StripRight("q\n", IsSpace) == "q" by {
      assert "q\n"[..1] == "q";
      assert StripRight("q", IsSpace) == "q";
    }
    MenuKeys("q");
  }

  /** An upper-case key selects the same action as its lower-case one. */
  lemma DispatchUpperExample()
    ensures Dispatch("V") == Some(ViewProduct)
  {
    var l := Lower("V");
    assert l[0] == 'v';
    assert l == "v";
    assert StripLeft("v", IsSpace) == "v" && StripRight("v", IsSpace) == "v";
    MenuKeys("v");
  }

  /** A whole word is not a key, even when it starts with one. */
  lemma DispatchWordExample()
    ensures Dispatch("view") == None
  {
    var l := Lower("view");
    assert l[0] == 'v' && l[1] == 'i' && l[2] == 'e' && l[3] == 'w';
    assert l == "view";
    assert StripLeft("view", IsSpace) == "view";
    assert StripRight("view", IsSpace) == "view";
    MenuKeys("view");
  }

  /**
   * The menu loop over the answers typed, in order. It stops at the first
   * answer that selects an action and returns that action; every answer
   * before it selected nothing and drew one error message. Running out of
   * answers returns no action.
   */
  method MainMenu(lines: seq<string>) returns (action: Option<Action>, consumed: nat, errors: nat)
    ensures consumed <= |lines|
    ensures action.Some? ==> 0 < consumed && Dispatch(lines[consumed - 1]) == action
    ensures action.None? ==> consumed == |lines|
    ensures forall i :: 0 <= i < consumed && (action.None? || i < consumed - 1) ==> Dispatch(lines[i]).None?
    ensures errors == if action.Some? then consumed - 1 else consumed
  {
    var choice: Option<string> := None;
    action, consumed, errors := None, 0, 0;
    while choice != Some("q") && consumed < |lines|
      invariant consumed <= |lines|
      invariant action.None? && errors == consumed
      invariant choice != Some("q")
      invariant forall i :: 0 <= i < consumed ==> Dispatch(lines[i]).None?
    {
      var key := Normalize(lines[consumed]);
      choice := Some(key);
      consumed := consumed + 1;
      var selected := Lookup(MenuTable, key);
      if selected.None? {
        MenuKeys(key);
        errors := errors + 1;
      } else {
        action := selected;
        break;
      }
    }
  }
}
