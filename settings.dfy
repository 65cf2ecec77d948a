/** The in-memory settings: six categories, each holding the named values of its
    combo boxes, check boxes and text boxes. */
module SettingsHandlers {
  import opened Errors

  /** `Where(x => x.Item1 == name)`: the controls with that name, in order. */
  function Matches<T>(list: seq<(string, T)>, name: string): (m: seq<(string, T)>)
    ensures forall e :: e in m ==> e in list && e.0 == name
    ensures m == [] <==> forall i :: 0 <= i < |list| ==> list[i].0 != name
  {
    if list == [] then []
    else if list[0].0 == name then [list[0]] + Matches(list[1..], name)
    else
      var m := Matches(list[1..], name);
      assert forall i :: 0 < i < |list| ==> list[i] == list[1..][i - 1];
      m
  }

  /** `IndexOf(e)`: the first index holding `e`, -1 when there is none. */
  function IndexOf<T(==)>(list: seq<(string, T)>, e: (string, T)): (k: int)
    ensures -1 <= k < |list|
    ensures k >= 0 ==> list[k] == e && forall i :: 0 <= i < k ==> list[i] != e
    ensures k == -1 ==> e !in list
  {
    if list == [] then -1
    else if list[0] == e then 0
    else
      var k := IndexOf(list[1..], e);
      if k == -1 then -1 else k + 1
  }

  /** The first index whose control has the given name, -1 when there is none. */
  function FirstNamed<T>(list: seq<(string, T)>, name: string): (k: int)
    ensures -1 <= k < |list|
    ensures k >= 0 ==> list[k].0 == name && forall i :: 0 <= i < k ==> list[i].0 != name
    ensures k == -1 ==> forall i :: 0 <= i < |list| ==> list[i].0 != name
  {
    if list == [] then -1
    else if list[0].0 == name then 0
    else
      var k := FirstNamed(list[1..], name);
      if k == -1 then -1 else k + 1
  }

  /** Looking up the index of the first match finds the first control with that
      name: an equal control earlier in the list would carry the name too. */
  lemma {:induction false} IndexOfFirstMatch<T>(list: seq<(string, T)>, name: string)
    requires Matches(list, name) != []
    ensures IndexOf(list, Matches(list, name)[0]) == FirstNamed(list, name)
  {
    if list[0].0 != name {
      IndexOfFirstMatch(list[1..], name);
    }
  }

  /** The value the string overload leaves or the reason it throws, as written:
      a name without a combo box always throws, so text boxes are never set. */
  function SetStringAsWritten(comboBoxes: seq<(string, string)>, textBoxes: seq<(string, string)>,
                              name: string, value: string): Result<(seq<(string, string)>, seq<(string, string)>)>
  {
    var k := FirstNamed(comboBoxes, name);
    if k >= 0 then Ok((comboBoxes[k := (name, value)], textBoxes)) else Err(InvalidOperation)
  }

  /** The evidently intended string overload: a combo box first, else a text box. */
  function SetStringIntended(comboBoxes: seq<(string, string)>, textBoxes: seq<(string, string)>,
                             name: string, value: string): Result<(seq<(string, string)>, seq<(string, string)>)>
  {
    var k := FirstNamed(comboBoxes, name);
    if k >= 0 then Ok((comboBoxes[k := (name, value)], textBoxes))
    else
      var j := FirstNamed(textBoxes, name);
      if j >= 0 then Ok((comboBoxes, textBoxes[j := (name, value)])) else Err(InvalidOperation)
  }

  /** As written, no call ever changes a text box. */
  lemma TextBoxesNeverChange(comboBoxes: seq<(string, string)>, textBoxes: seq<(string, string)>, name: string, value: string)
    ensures SetStringAsWritten(comboBoxes, textBoxes, name, value).Ok? ==>
              SetStringAsWritten(comboBoxes, textBoxes, name, value).value.1 == textBoxes
  {
  }

  /** A text box named "font" with no combo box of that name: as written the call
      throws, the intended behaviour sets the text box. */
  lemma TextBoxCounterexample()
    ensures SetStringAsWritten([], [("font", "a")], "font", "b") == Err(InvalidOperation)
    ensures SetStringIntended([], [("font", "a")], "font", "b") == Ok(([], [("font", "b")]))
  {
    var texts: seq<(string, string)> := [("font", "a")];
    assert FirstNamed(texts, "font") == 0;
    assert texts[0 := ("font", "b")] == [("font", "b")];
  }

  /** The intended overload sets exactly the first control of the given name,
      preferring combo boxes, and throws exactly when neither list has the name. */
  lemma SetStringIntendedMeaning(comboBoxes: seq<(string, string)>, textBoxes: seq<(string, string)>, name: string, value: string)
    ensures SetStringIntended(comboBoxes, textBoxes, name, value).Err? <==>
              (forall i :: 0 <= i < |comboBoxes| ==> comboBoxes[i].0 != name) &&
              (forall i :: 0 <= i < |textBoxes| ==> textBoxes[i].0 != name)
    ensures (exists i :: 0 <= i < |comboBoxes| && comboBoxes[i].0 == name) ==>
              var r := SetStringIntended(comboBoxes, textBoxes, name, value).value;
              r.1 == textBoxes &&
              exists k :: 0 <= k < |comboBoxes| && comboBoxes[k].0 == name &&
                (forall i :: 0 <= i < k ==> comboBoxes[i].0 != name) && r.0 == comboBoxes[k := (name, value)]
    ensures (forall i :: 0 <= i < |comboBoxes| ==> comboBoxes[i].0 != name) &&
            (exists i :: 0 <= i < |textBoxes| && textBoxes[i].0 == name) ==>
              var r := SetStringIntended(comboBoxes, textBoxes, name, value).value;
              r.0 == comboBoxes &&
              exists k :: 0 <= k < |textBoxes| && textBoxes[k].0 == name &&
                (forall i :: 0 <= i < k ==> textBoxes[i].0 != name) && r.1 == textBoxes[k := (name, value)]
  {
    var k := FirstNamed(comboBoxes, name);
    var j := FirstNamed(textBoxes, name);
    if k >= 0 {
      assert comboBoxes[k].0 == name;
    } else if j >= 0 {
      assert textBoxes[j].0 == name;
    }
  }

  /** One category: (name, value) pairs for each kind of control. */
  class CategoryContainer {
    var comboBoxes: seq<(string, string)>
    var checkBoxes: seq<(string, bool)>
    var textBoxes: seq<(string, string)>

    constructor (comboBoxes: seq<(string, string)>, checkBoxes: seq<(string, bool)>, textBoxes: seq<(string, string)>)
      ensures this.comboBoxes == comboBoxes && this.checkBoxes == checkBoxes && this.textBoxes == textBoxes
    {
      this.comboBoxes := comboBoxes;
      this.checkBoxes := checkBoxes;
      this.textBoxes := textBoxes;
    }
  }

  class Settings {
    const general: CategoryContainer
    const editing: CategoryContainer
    const newDocument: CategoryContainer
    const defaultDirectory: CategoryContainer
    const recentFilesHistory: CategoryContainer
    const highlighting: CategoryContainer

    predicate AllEmpty()
      reads general, editing, newDocument, defaultDirectory, recentFilesHistory, highlighting
    {
      forall c :: c in {general, editing, newDocument, defaultDirectory, recentFilesHistory, highlighting} ==>
        c.comboBoxes == [] && c.checkBoxes == [] && c.textBoxes == []
    }

    /** Six separate, empty categories. */
    constructor Empty()
      ensures AllEmpty()
      ensures fresh(general) && fresh(editing) && fresh(newDocument) &&
              fresh(defaultDirectory) && fresh(recentFilesHistory) && fresh(highlighting)
    {
      general := new CategoryContainer([], [], []);
      editing := new CategoryContainer([], [], []);
      newDocument := new CategoryContainer([], [], []);
      defaultDirectory := new CategoryContainer([], [], []);
      recentFilesHistory := new CategoryContainer([], [], []);
      highlighting := new CategoryContainer([], [], []);
    }
  }

  class SettingsHandler {
    var settingsInstance: Settings

    /** `loaded` is what reading and deserialising the settings file gave, None when
        that threw; a failed load falls back to six empty categories. */
    constructor (loaded: Option<Settings>)
      ensures loaded.Some? ==> settingsInstance == loaded.value
      ensures loaded.None? ==> fresh(settingsInstance) && settingsInstance.AllEmpty()
    {
      if loaded.Some? {
        settingsInstance := loaded.value;
      } else {
        settingsInstance := new Settings.Empty();
      }
    }

    /** Sets the first check box of the given name; throws when there is none. */
    method ChangeCheckBox(category: CategoryContainer, name: string, value: bool) returns (r: Outcome)
      modifies category`checkBoxes
      ensures var k := FirstNamed(old(category.checkBoxes), name);
              r == (if k >= 0 then Pass else Fail(InvalidOperation)) &&
              category.checkBoxes == if k >= 0 then old(category.checkBoxes)[k := (name, value)] else old(category.checkBoxes)
    {
      var checkBoxMatches := Matches(category.checkBoxes, name);
      if checkBoxMatches == [] {
        return Fail(InvalidOperation);
      }
      var index := IndexOf(category.checkBoxes, checkBoxMatches[0]);
      IndexOfFirstMatch(category.checkBoxes, name);
      category.checkBoxes := category.checkBoxes[index := (name, value)];
      return Pass;
    }

    /** Sets the first combo box of the given name. Otherwise the guard before the
        text boxes tests the combo-box matches again, which are empty, so it always
        throws. */
    method ChangeComboOrTextBox(category: CategoryContainer, name: string, value: string) returns (r: Outcome)
      modifies category`comboBoxes, category`textBoxes
      ensures var w := SetStringAsWritten(old(category.comboBoxes), old(category.textBoxes), name, value);
              r == (if w.Ok? then Pass else Fail(w.error)) &&
              (category.comboBoxes, category.textBoxes) == if w.Ok? then w.value else (old(category.comboBoxes), old(category.textBoxes))
    {
      var comboBoxMatches := Matches(category.comboBoxes, name);
      if comboBoxMatches != [] {
        var index := IndexOf(category.comboBoxes, comboBoxMatches[0]);
        IndexOfFirstMatch(category.comboBoxes, name);
        category.comboBoxes := category.comboBoxes[index := (name, value)];
        return Pass;
      } else {
        var textBoxMatches := Matches(category.textBoxes, name);
        if comboBoxMatches == [] {
          return Fail(InvalidOperation);
        }
      }
    }

    /** The corrected string overload: the second guard tests the text-box matches. */
    method ChangeComboOrTextBoxIntended(category: CategoryContainer, name: string, value: string) returns (r: Outcome)
      modifies category`comboBoxes, category`textBoxes
      ensures var w := SetStringIntended(old(category.comboBoxes), old(category.textBoxes), name, value);
              r == (if w.Ok? then Pass else Fail(w.error)) &&
              (category.comboBoxes, category.textBoxes) == if w.Ok? then w.value else (old(category.comboBoxes), old(category.textBoxes))
    {
      var comboBoxMatches := Matches(category.comboBoxes, name);
      if comboBoxMatches != [] {
        var index := IndexOf(category.comboBoxes, comboBoxMatches[0]);
        IndexOfFirstMatch(category.comboBoxes, name);
        category.comboBoxes := category.comboBoxes[index := (name, value)];
        return Pass;
      } else {
        var textBoxMatches := Matches(category.textBoxes, name);
        if textBoxMatches == [] {
          return Fail(InvalidOperation);
        }
        var index := IndexOf(category.textBoxes, textBoxMatches[0]);
        IndexOfFirstMatch(category.textBoxes, name);
        category.textBoxes := category.textBoxes[index := (name, value)];
        return Pass;
      }
    }
  }
}
