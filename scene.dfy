/**
 * The values the viewer derives from one reload: the action table with every
 * keyframe matrix turned into a dual quaternion, the joint index to name
 * table, and the action buttons with their highlight.
 */
module SceneData {
  import opened Js

  /** A 4x4 matrix, as the sixteen numbers of the JSON array. */
  type Matrix = seq<real>
  /** A dual quaternion: rotation quaternion then translation quaternion. */
  type DualQuat = seq<real>
  /** One keyframe's pose: one dual quaternion per joint. */
  type Pose = seq<DualQuat>
  /** An action: keyframe time (the JSON key) to pose. */
  type Keyframes = Dict<Pose>
  /** An action as received: keyframe time to one matrix per joint. */
  type RawKeyframes = Dict<seq<Matrix>>

  /**
   * What the handler does to matrix `m` with inverse bind pose `b`:
   * multiply, transpose, convert with `mat4-to-dual-quat`. The libraries'
   * numerics are not modelled, so this is a parameter.
   */
  type Skinning = (Matrix, Matrix) -> DualQuat

  /** Every keyframe of every action has at most `n` matrices, and every object's key list is valid. */
  ghost predicate Fits(actions: Dict<RawKeyframes>, n: nat) {
    && actions.Valid()
    && forall a :: a in actions.entries ==> FitsAction(actions.entries[a], n)
  }

  ghost predicate FitsAction(keyframes: RawKeyframes, n: nat) {
    keyframes.Valid() && forall t :: t in keyframes.entries ==> |keyframes.entries[t]| <= n
  }

  /** `matrices.map((matrix, index) => ...)`: entry i from matrix i and inverse bind pose i. */
  function ConvertPose(matrices: seq<Matrix>, inverseBindPoses: seq<Matrix>, skin: Skinning): (r: Pose)
    requires |matrices| <= |inverseBindPoses|
  {
    seq(|matrices|, i requires 0 <= i < |matrices| => skin(matrices[i], inverseBindPoses[i]))
  }

  /**
   * The inner `reduce` over the keyframe times `times` of one action: each time
   * mapped to its converted pose, in the same order.
   */
  function ConvertKeyframesFrom(times: seq<string>, keyframes: map<string, seq<Matrix>>, inverseBindPoses: seq<Matrix>, skin: Skinning): (r: Dict<Pose>)
    requires forall t :: t in times ==> t in keyframes && |keyframes[t]| <= |inverseBindPoses|
    ensures r.keys == times
    decreases |times|
  {
    if times == [] then Dict([], map[])
    else
      var prefix, last := times[..|times| - 1], times[|times| - 1];
      assert forall t :: t in prefix ==> t in times;
      var acc := ConvertKeyframesFrom(prefix, keyframes, inverseBindPoses, skin);
      Dict(acc.keys + [last], acc.entries[last := ConvertPose(keyframes[last], inverseBindPoses, skin)])
  }

  /** Over distinct times the rebuilt table is a valid object holding each time's converted pose. */
  lemma {:induction false} ConvertKeyframesFromEntries(times: seq<string>, keyframes: map<string, seq<Matrix>>, inverseBindPoses: seq<Matrix>, skin: Skinning)
    requires Distinct(times)
    requires forall t :: t in times ==> t in keyframes && |keyframes[t]| <= |inverseBindPoses|
    ensures var r := ConvertKeyframesFrom(times, keyframes, inverseBindPoses, skin);
      && r.Valid()
      && forall t :: t in times ==> r.entries[t] == ConvertPose(keyframes[t], inverseBindPoses, skin)
    decreases |times|
  {
    if times != [] {
      var prefix, last := times[..|times| - 1], times[|times| - 1];
      assert times == prefix + [last];
      assert last !in prefix;
      ConvertKeyframesFromEntries(prefix, keyframes, inverseBindPoses, skin);
    }
  }

  /** One action's keyframe table rebuilt. */
  function ConvertKeyframes(keyframes: RawKeyframes, inverseBindPoses: seq<Matrix>, skin: Skinning): (r: Dict<Pose>)
    requires FitsAction(keyframes, |inverseBindPoses|)
    ensures r.keys == keyframes.keys
  {
    ConvertKeyframesFrom(keyframes.keys, keyframes.entries, inverseBindPoses, skin)
  }

  /**
   * The outer `reduce` over the action names `names`: each action mapped to
   * its converted keyframe table, in the same order.
   */
  function ConvertActionsFrom(names: seq<string>, actions: map<string, RawKeyframes>, inverseBindPoses: seq<Matrix>, skin: Skinning): (r: Dict<Keyframes>)
    requires forall a :: a in names ==> a in actions && FitsAction(actions[a], |inverseBindPoses|)
    ensures r.keys == names
    decreases |names|
  {
    if names == [] then Dict([], map[])
    else
      var prefix, last := names[..|names| - 1], names[|names| - 1];
      assert forall a :: a in prefix ==> a in names;
      var acc := ConvertActionsFrom(prefix, actions, inverseBindPoses, skin);
      Dict(acc.keys + [last], acc.entries[last := ConvertKeyframes(actions[last], inverseBindPoses, skin)])
  }

  /** Over distinct names the rebuilt table is a valid object holding each action's rebuilt keyframes. */
  lemma {:induction false} ConvertActionsFromEntries(names: seq<string>, actions: map<string, RawKeyframes>, inverseBindPoses: seq<Matrix>, skin: Skinning)
    requires Distinct(names)
    requires forall a :: a in names ==> a in actions && FitsAction(actions[a], |inverseBindPoses|)
    ensures var r := ConvertActionsFrom(names, actions, inverseBindPoses, skin);
      && r.Valid()
      && forall a :: a in names ==> r.entries[a] == ConvertKeyframes(actions[a], inverseBindPoses, skin)
    decreases |names|
  {
    if names != [] {
      var prefix, last := names[..|names| - 1], names[|names| - 1];
      assert names == prefix + [last];
      assert last !in prefix;
      ConvertActionsFromEntries(prefix, actions, inverseBindPoses, skin);
    }
  }

  /** The rebuilt `armature.actions`: every action, every keyframe, every matrix converted. */
  function ConvertActions(actions: Dict<RawKeyframes>, inverseBindPoses: seq<Matrix>, skin: Skinning): (r: Dict<Keyframes>)
    requires Fits(actions, |inverseBindPoses|)
    ensures r.Valid() && r.keys == actions.keys
  {
    ConvertActionsFromEntries(actions.keys, actions.entries, inverseBindPoses, skin);
    ConvertActionsFrom(actions.keys, actions.entries, inverseBindPoses, skin)
  }

  /**
   * Rebuilding one action keeps its shape: the same keyframe times in the same
   * order, each pose as long as its matrix array, with entry i made from
   * matrix i and inverse bind pose i alone.
   */
  lemma ConvertKeyframesKeepsShape(keyframes: RawKeyframes, inverseBindPoses: seq<Matrix>, skin: Skinning)
    requires FitsAction(keyframes, |inverseBindPoses|)
    ensures var r := ConvertKeyframes(keyframes, inverseBindPoses, skin);
      && r.Valid() && r.keys == keyframes.keys
      && forall t :: t in keyframes.entries ==>
        && t in r.entries
        && |r.entries[t]| == |keyframes.entries[t]|
        && forall i :: 0 <= i < |keyframes.entries[t]| ==>
          r.entries[t][i] == skin(keyframes.entries[t][i], inverseBindPoses[i])
  {
    ConvertKeyframesFromEntries(keyframes.keys, keyframes.entries, inverseBindPoses, skin);
  }

  /**
   * The rebuild keeps the shape: the same action names in the same order, and
   * under each the rebuilt keyframes of that action.
   */
  lemma ConvertActionsKeepsShape(actions: Dict<RawKeyframes>, inverseBindPoses: seq<Matrix>, skin: Skinning)
    requires Fits(actions, |inverseBindPoses|)
    ensures var r := ConvertActions(actions, inverseBindPoses, skin);
      && r.Valid() && r.keys == actions.keys
      && forall a :: a in actions.entries ==>
        && a in r.entries
        && r.entries[a] == ConvertKeyframes(actions.entries[a], inverseBindPoses, skin)
  {
    ConvertActionsFromEntries(actions.keys, actions.entries, inverseBindPoses, skin);
  }

  /**
   * `Object.keys(jointNamePositionIndex).reduce((m, name, index) => { m[index] = name; return m }, {})`
   * over the key list `names`.
   */
  function IndicesToNames(names: seq<string>): map<nat, string>
    decreases |names|
  {
    if names == [] then map[]
    else IndicesToNames(names[..|names| - 1])[|names| - 1 := names[|names| - 1]]
  }

  /** The table maps each index below the number of names to the name at that index, and has no other entries. */
  lemma {:induction false} IndicesToNamesEntries(names: seq<string>)
    ensures forall i: nat :: i in IndicesToNames(names) <==> i < |names|
    ensures forall i :: 0 <= i < |names| ==> IndicesToNames(names)[i] == names[i]
    decreases |names|
  {
    if names != [] {
      IndicesToNamesEntries(names[..|names| - 1]);
    }
  }

  /** The marker of the duplicated actions the exporter emits. */
  const DuplicateMarker := "001"

  /** The action names that get a button: those without "001", in key order. */
  function ActionButtonNames(actionNames: seq<string>): (r: seq<string>)
    ensures |r| <= |actionNames|
    decreases |actionNames|
  {
    if actionNames == [] then []
    else
      (if IndexOf(actionNames[0], DuplicateMarker).None? then [actionNames[0]] else [])
      + ActionButtonNames(actionNames[1..])
  }

  /** A name has a button exactly when it is an action name without "001". */
  lemma {:induction false} ActionButtonNamesMembers(actionNames: seq<string>)
    ensures forall n :: n in ActionButtonNames(actionNames) <==> n in actionNames && IndexOf(n, DuplicateMarker).None?
    decreases |actionNames|
  {
    if actionNames != [] {
      ActionButtonNamesMembers(actionNames[1..]);
      assert actionNames == [actionNames[0]] + actionNames[1..];
    }
  }

  /** The filter keeps key order: filtering a concatenation concatenates the filtered parts. */
  lemma {:induction false} ActionButtonNamesConcat(a: seq<string>, b: seq<string>)
    ensures ActionButtonNames(a + b) == ActionButtonNames(a) + ActionButtonNames(b)
    decreases |a|
  {
    if a != [] {
      assert (a + b)[1..] == a[1..] + b;
      ActionButtonNamesConcat(a[1..], b);
    } else {
      assert a + b == b;
    }
  }

  /** Distinct action names give distinct buttons. */
  lemma {:induction false} ActionButtonNamesDistinct(actionNames: seq<string>)
    requires Distinct(actionNames)
    ensures Distinct(ActionButtonNames(actionNames))
    decreases |actionNames|
  {
    if actionNames != [] {
      ActionButtonNamesDistinct(actionNames[1..]);
      ActionButtonNamesMembers(actionNames[1..]);
      assert actionNames[0] !in actionNames[1..];
    }
  }

  const ButtonClass := "action-button "
  const HighlightClass := "highlighted-action"

  /** The class a button for `name` gets while `currentAction` plays. */
  function ButtonClassFor(name: string, currentAction: string): string {
    ButtonClass + (if name == currentAction then HighlightClass else "")
  }

  /** `highlightSelectedAction`: the class name each button gets, in button order. */
  function ButtonClassNames(buttons: seq<string>, currentAction: string): (r: seq<string>)
    ensures |r| == |buttons|
    decreases |buttons|
  {
    if buttons == [] then []
    else [ButtonClassFor(buttons[0], currentAction)] + ButtonClassNames(buttons[1..], currentAction)
  }

  /** Every button has the plain class or the highlighted one, and the highlighted one exactly when it names the current action. */
  lemma {:induction false} ButtonClassNamesHighlight(buttons: seq<string>, currentAction: string)
    ensures var r := ButtonClassNames(buttons, currentAction);
      && (forall i :: 0 <= i < |buttons| ==> r[i] == ButtonClass || r[i] == ButtonClass + HighlightClass)
      && (forall i :: 0 <= i < |buttons| ==> (r[i] == ButtonClass + HighlightClass <==> buttons[i] == currentAction))
    decreases |buttons|
  {
    if buttons != [] {
      ButtonClassNamesHighlight(buttons[1..], currentAction);
      var r := ButtonClassNames(buttons, currentAction);
      assert |ButtonClass| != |ButtonClass + HighlightClass|;
      forall i | 1 <= i < |buttons|
        ensures r[i] == ButtonClassNames(buttons[1..], currentAction)[i - 1] && buttons[i] == buttons[1..][i - 1]
      {
      }
    }
  }

  /** Among distinct buttons exactly one is highlighted when the current action has a button, and none otherwise. */
  lemma HighlightIsUnique(buttons: seq<string>, currentAction: string)
    requires Distinct(buttons)
    ensures var r := ButtonClassNames(buttons, currentAction);
      && (forall i, j :: 0 <= i < j < |buttons| ==> !(r[i] == r[j] == ButtonClass + HighlightClass))
      && ((exists i :: 0 <= i < |buttons| && r[i] == ButtonClass + HighlightClass) <==> currentAction in buttons)
  {
    ButtonClassNamesHighlight(buttons, currentAction);
    if currentAction in buttons {
      var i :| 0 <= i < |buttons| && buttons[i] == currentAction;
      assert ButtonClassNames(buttons, currentAction)[i] == ButtonClass + HighlightClass;
    }
  }
}
