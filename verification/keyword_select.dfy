/** The keyword picker of frontend/src/App.jsx: a multi-select over the
    eighteen keywords plus a "Select All Keywords" entry, the change handler
    that keeps the two consistent, and the guard in front of the request.
    The select widget itself is outside the model: it hands the handler the
    list it has computed and a description of the user's action.
 */
module KeywordSelect {
  import opened Results

  /** A select option: the value sent and the caption shown. */
  datatype Choice = Choice(value: string, caption: string)

  const AllValue: string := "all"
  const AllOption: Choice := Choice(AllValue, "Select All Keywords")

  /** An option whose caption is the keyword itself. */
  function Keyword(k: string): Choice {
    Choice(k, k)
  }

  const KeywordOptions: seq<Choice> := [
    Keyword("NSF Recompete Pilot Program"), Keyword("Economic Development Agency (EDA)"),
    Keyword("CHIPS Act"), Keyword("Semiconductors"), Keyword("EDA's Impact Newsletter"),
    Keyword("AI Legislation"), Keyword("University"), Keyword("Research"),
    Keyword("Research Expenditures"), Keyword("Research Grant/Award"),
    Keyword("Federal AI Legislation"), Keyword("Pittsburgh"), Keyword("Nashville"),
    Keyword("Georgia"), Keyword("Texas"), Keyword("HBCUs"), Keyword("Tech Hub"),
    Keyword("Economic Impact")]

  /** What the widget lists: the select-all entry first, then the keywords. */
  const DisplayOptions: seq<Choice> := [AllOption] + KeywordOptions

  /** The widget's `actionMeta`: what the user did, with the option the
      select and deselect actions concern. */
  datatype Action =
    | SelectOption(option: Choice)
    | DeselectOption(option: Choice)
    | RemoveValue
    | PopValue
    | Clear
    | CreateOption
    | SetValue

  /** The selection without the select-all entry, in order. */
  function WithoutAll(xs: seq<Choice>): (r: seq<Choice>)
    ensures |r| <= |xs|
  {
    if |xs| == 0 then []
    else (if xs[0].value != AllValue then [xs[0]] else []) + WithoutAll(xs[1..])
  }

  /** WithoutAll keeps exactly the options whose value is not "all". */
  lemma {:induction false} WithoutAllMembers(xs: seq<Choice>)
    ensures forall c :: c in WithoutAll(xs) <==> c in xs && c.value != AllValue
    decreases |xs|
  {
    if |xs| > 0 {
      WithoutAllMembers(xs[1..]);
      assert xs == [xs[0]] + xs[1..];
    }
  }

  /** Choosing or dropping the select-all entry, or clearing: the actions
      the handler answers without looking at the widget's list. */
  predicate Resets(action: Action) {
    || (action.SelectOption? && action.option.value == AllValue)
    || (action.DeselectOption? && action.option.value == AllValue)
    || action.Clear?
  }

  /** `handleKeywordChange`: the selection state after the widget reports
      `selected` for `action`. */
  function HandleKeywordChange(selected: seq<Choice>, action: Action): (next: seq<Choice>)
    ensures action.SelectOption? && action.option.value == AllValue ==> next == DisplayOptions
    ensures action.Clear? || (action.DeselectOption? && action.option.value == AllValue) ==> next == []
    ensures !Resets(action) ==> (next == DisplayOptions <==> |WithoutAll(selected)| == |KeywordOptions|)
    ensures !Resets(action) && |WithoutAll(selected)| != |KeywordOptions| ==> next == WithoutAll(selected)
    ensures next == DisplayOptions || forall c :: c in next ==> c in selected && c.value != AllValue
    ensures next == DisplayOptions || |next| <= |selected|
  {
    if action.SelectOption? && action.option.value == AllValue then DisplayOptions
    else if action.DeselectOption? && action.option.value == AllValue then []
    else if action.Clear? then []
    else
      var newSelection := WithoutAll(selected);
      WithoutAllMembers(selected);
      if |newSelection| == |KeywordOptions| then DisplayOptions
      else
        assert newSelection != DisplayOptions by {
          assert DisplayOptions[0] == AllOption;
          if |newSelection| > 0 {
            assert newSelection[0] in newSelection;
          }
        }
        newSelection
  }

  /** The select-all entry is shown as chosen exactly when the state is the
      full option list. */
  lemma AllChosenIffFull(selected: seq<Choice>, action: Action)
    ensures var next := HandleKeywordChange(selected, action);
            AllOption in next <==> next == DisplayOptions
  {
    var next := HandleKeywordChange(selected, action);
    if next == DisplayOptions {
      assert DisplayOptions[0] == AllOption;
    } else {
      WithoutAllMembers(selected);
      assert next == [] || next == WithoutAll(selected);
    }
  }

  /** The values of the options, in order. */
  function Values(xs: seq<Choice>): (r: seq<string>)
    ensures |r| == |xs|
    ensures forall i :: 0 <= i < |xs| ==> r[i] == xs[i].value
  {
    if |xs| == 0 then [] else [xs[0].value] + Values(xs[1..])
  }

  /** `keywordsToSend`: the chosen values other than "all". */
  function KeywordsToSend(selected: seq<Choice>): (ks: seq<string>)
    ensures AllValue !in ks
    ensures forall k :: k in ks <==> exists c :: c in selected && c.value == k && k != AllValue
    ensures |selected| == 1 ==> ks == if selected[0].value != AllValue then [selected[0].value] else []
  {
    var r := Values(WithoutAll(selected));
    WithoutAllMembers(selected);
    assert forall k :: k in r <==> exists c :: c in WithoutAll(selected) && c.value == k by {
      forall k | k in r ensures exists c :: c in WithoutAll(selected) && c.value == k {
        var i :| 0 <= i < |r| && r[i] == k;
        assert WithoutAll(selected)[i] in WithoutAll(selected);
      }
      forall k | exists c :: c in WithoutAll(selected) && c.value == k ensures k in r {
        var c :| c in WithoutAll(selected) && c.value == k;
        var i :| 0 <= i < |WithoutAll(selected)| && WithoutAll(selected)[i] == c;
        assert r[i] == k;
      }
    }
    r
  }

  lemma {:induction false} WithoutAllAppend(xs: seq<Choice>, ys: seq<Choice>)
    ensures WithoutAll(xs + ys) == WithoutAll(xs) + WithoutAll(ys)
    decreases |xs|
  {
    if |xs| > 0 {
      var head := if xs[0].value != AllValue then [xs[0]] else [];
      assert (xs + ys)[0] == xs[0];
      assert (xs + ys)[1..] == xs[1..] + ys;
      assert WithoutAll(xs + ys) == head + WithoutAll(xs[1..] + ys);
      WithoutAllAppend(xs[1..], ys);
      assert WithoutAll(xs) == head + WithoutAll(xs[1..]);
    } else {
      assert xs + ys == ys;
    }
  }

  lemma ValuesAppend(xs: seq<Choice>, ys: seq<Choice>)
    ensures Values(xs + ys) == Values(xs) + Values(ys)
  {
    assert forall i :: 0 <= i < |xs + ys| ==> Values(xs + ys)[i] == (xs + ys)[i].value;
  }

  /** The keywords sent for a concatenation of selections are those of each
      part, in order; with the one-option case this fixes the order and the
      multiplicity of what is sent. */
  lemma KeywordsToSendAppend(xs: seq<Choice>, ys: seq<Choice>)
    ensures KeywordsToSend(xs + ys) == KeywordsToSend(xs) + KeywordsToSend(ys)
  {
    WithoutAllAppend(xs, ys);
    ValuesAppend(WithoutAll(xs), WithoutAll(ys));
  }

  /** What submitting the form does before any request is made. */
  datatype Submission = Blocked(status: string) | Send(keywords: seq<string>)

  const NoKeywordsStatus: string := "Please select at least one keyword to search."

  /** The submit guard: no request unless a real keyword is chosen. */
  function Submit(selected: seq<Choice>): (s: Submission)
    ensures s.Blocked? <==> forall c :: c in selected ==> c.value == AllValue
    ensures s.Blocked? ==> s.status == NoKeywordsStatus
    ensures s.Send? ==> |s.keywords| > 0 && s.keywords == KeywordsToSend(selected)
  {
    var ks := KeywordsToSend(selected);
    assert forall c :: c in selected ==> c.value == AllValue || c.value in ks;
    if |ks| == 0 then
      Blocked(NoKeywordsStatus)
    else
      assert exists c :: c in selected && c.value != AllValue by {
        assert ks[0] in ks;
      }
      Send(ks)
  }

  /** Choosing "Select All Keywords" sends every keyword, in list order. */
  lemma SelectAllSendsEveryKeyword(selected: seq<Choice>)
    ensures KeywordsToSend(HandleKeywordChange(selected, SelectOption(AllOption))) == Values(KeywordOptions)
  {
    assert HandleKeywordChange(selected, SelectOption(AllOption)) == [AllOption] + KeywordOptions by {
      SelectAllIsFull(selected);
    }
    KeywordsAreNotAll();
    SendsAfterAll(KeywordOptions);
  }

  lemma SelectAllIsFull(selected: seq<Choice>)
    ensures HandleKeywordChange(selected, SelectOption(AllOption)) == [AllOption] + KeywordOptions
  {
  }

  /** Deselecting "Select All Keywords" or clearing empties the selection,
      so the next submit is blocked. */
  lemma DeselectAllBlocksSubmit(selected: seq<Choice>, action: Action)
    requires (action.DeselectOption? && action.option.value == AllValue) || action.Clear?
    ensures Submit(HandleKeywordChange(selected, action)) == Blocked(NoKeywordsStatus)
  {
  }

  lemma SendsAfterAll(opts: seq<Choice>)
    requires forall c :: c in opts ==> c.value != AllValue
    ensures KeywordsToSend([AllOption] + opts) == Values(opts)
  {
    assert ([AllOption] + opts)[1..] == opts;
    WithoutAllKeeps(opts);
  }

  lemma KeywordsAreNotAll()
    ensures forall c :: c in KeywordOptions ==> c.value != AllValue
  {
  }

  lemma {:induction false} WithoutAllKeeps(xs: seq<Choice>)
    requires forall c :: c in xs ==> c.value != AllValue
    ensures WithoutAll(xs) == xs
    decreases |xs|
  {
    if |xs| > 0 {
      assert xs[0] in xs;
      forall c | c in xs[1..] ensures c.value != AllValue {
        assert c in xs;
      }
      WithoutAllKeeps(xs[1..]);
      assert xs == [xs[0]] + xs[1..];
    }
  }

  /** Removing the "Select All Keywords" chip while everything is chosen
      leaves the eighteen keywords, which the handler turns back into the
      full selection: the chip cannot be removed that way, only by deselecting
      it in the menu or clearing. */
  lemma RemovingAllChipReselectsAll()
    ensures HandleKeywordChange(KeywordOptions, RemoveValue) == DisplayOptions
  {
    KeywordsAreNotAll();
    FullAgain(KeywordOptions);
  }

  lemma FullAgain(opts: seq<Choice>)
    requires forall c :: c in opts ==> c.value != AllValue
    requires |opts| == |KeywordOptions|
    ensures HandleKeywordChange(opts, RemoveValue) == DisplayOptions
  {
    WithoutAllKeeps(opts);
  }

  /** Removing the last keyword from the full selection (backspace) leaves
      the other seventeen, without the select-all entry. */
  lemma PopFromFullSelection()
    ensures HandleKeywordChange(DisplayOptions[..|KeywordOptions|], PopValue) == KeywordOptions[..|KeywordOptions| - 1]
  {
    KeywordsAreNotAll();
    PopLast(KeywordOptions);
  }

  lemma PopLast(opts: seq<Choice>)
    requires forall c :: c in opts ==> c.value != AllValue
    requires |opts| == |KeywordOptions|
    ensures HandleKeywordChange(([AllOption] + opts)[..|opts|], PopValue) == opts[..|opts| - 1]
  {
    var rest := opts[..|opts| - 1];
    assert ([AllOption] + opts)[..|opts|] == [AllOption] + rest;
    forall c | c in rest ensures c.value != AllValue {
      assert c in opts;
    }
    assert ([AllOption] + rest)[1..] == rest;
    WithoutAllKeeps(rest);
  }

  /** No option is listed twice; the widget never reports a duplicate. */
  predicate Distinct(xs: seq<Choice>) {
    forall i, j :: 0 <= i < j < |xs| ==> xs[i] != xs[j]
  }

  function Elements(xs: seq<Choice>): set<Choice> {
    set c | c in xs
  }

  lemma {:induction false} ElementsCount(xs: seq<Choice>)
    ensures |Elements(xs)| <= |xs|
    ensures Distinct(xs) ==> |Elements(xs)| == |xs|
    decreases |xs|
  {
    if |xs| > 0 {
      ElementsCount(xs[1..]);
      assert Elements(xs) == {xs[0]} + Elements(xs[1..]);
      if Distinct(xs) {
        assert xs[0] !in Elements(xs[1..]) by {
          forall k | 0 <= k < |xs[1..]| ensures xs[1..][k] != xs[0] {
            assert xs[1..][k] == xs[k + 1];
          }
        }
      }
    }
  }

  lemma {:induction false} WithoutAllDistinct(xs: seq<Choice>)
    requires Distinct(xs)
    ensures Distinct(WithoutAll(xs))
    decreases |xs|
  {
    if |xs| > 0 {
      WithoutAllDistinct(xs[1..]);
      WithoutAllMembers(xs[1..]);
      var r := WithoutAll(xs);
      var head := if xs[0].value != AllValue then [xs[0]] else [];
      assert r == head + WithoutAll(xs[1..]);
      forall k | 0 <= k < |xs[1..]| ensures xs[1..][k] != xs[0] {
        assert xs[1..][k] == xs[k + 1];
      }
    }
  }

  /** A subset as large as its superset is the superset. */
  lemma SubsetOfSameSize(a: set<Choice>, b: set<Choice>)
    requires a <= b && |a| >= |b|
    ensures a == b
  {
    var rest := b - a;
    assert b == a + rest;
    assert a * rest == {};
    assert |rest| == 0;
    assert rest == {};
  }

  /** When the selection holds as many distinct keywords as there are
      options, it holds them all. */
  lemma CollapseKeeps(selected: seq<Choice>, opts: seq<Choice>)
    requires Distinct(selected)
    requires forall c :: c in selected ==> c == AllOption || c in opts
    requires forall c :: c in opts ==> c.value != AllValue
    requires |WithoutAll(selected)| == |opts|
    ensures forall k :: k in KeywordsToSend([AllOption] + opts) <==> k in KeywordsToSend(selected)
  {
    CollapseHoldsAll(selected, opts);
    forall k ensures k in KeywordsToSend([AllOption] + opts) <==> k in KeywordsToSend(selected) {
      if k in KeywordsToSend(selected) {
        var c :| c in selected && c.value == k && k != AllValue;
        assert c in [AllOption] + opts;
      }
      if k in KeywordsToSend([AllOption] + opts) {
        var c :| c in [AllOption] + opts && c.value == k && k != AllValue;
        assert c in selected;
      }
    }
  }

  lemma CollapseHoldsAll(selected: seq<Choice>, opts: seq<Choice>)
    requires Distinct(selected)
    requires forall c :: c in selected ==> c == AllOption || c in opts
    requires forall c :: c in opts ==> c.value != AllValue
    requires |WithoutAll(selected)| == |opts|
    ensures forall c :: c in opts ==> c in selected
  {
    var w := WithoutAll(selected);
    WithoutAllMembers(selected);
    WithoutAllDistinct(selected);
    ElementsCount(w);
    ElementsCount(opts);
    assert Elements(w) <= Elements(opts);
    SubsetOfSameSize(Elements(w), Elements(opts));
    forall c | c in opts ensures c in selected {
      assert c in Elements(opts);
    }
  }

  /** Any change other than select-all, deselect-all and clear leaves the
      keywords that would be sent unchanged: collapsing to the full list only
      happens when every keyword is already chosen. */
  lemma ChangeKeepsKeywords(selected: seq<Choice>, action: Action)
    requires !(action.SelectOption? && action.option.value == AllValue)
    requires !(action.DeselectOption? && action.option.value == AllValue)
    requires !action.Clear?
    requires Distinct(selected)
    requires forall c :: c in selected ==> c in DisplayOptions
    ensures forall k :: k in KeywordsToSend(HandleKeywordChange(selected, action)) <==> k in KeywordsToSend(selected)
  {
    if |WithoutAll(selected)| == |KeywordOptions| {
      KeywordsAreNotAll();
      CollapseKeeps(selected, KeywordOptions);
    } else {
      WithoutAllMembers(selected);
    }
  }
}
