/**
 * The browser side: the module-level animation state of the viewer and the
 * event handlers that change it (a reload arriving, an action button
 * clicked, the texture loading, a frame being drawn).
 */
module Viewer {
  import opened Js
  import opened SceneData

  /** The joint count compiled into the skinning shader. */
  const NumJoints: nat := 18
  /** The action playing when the page loads. */
  const InitialAction := "Walk_polish"

  /** `{startTime, keyframes}`; keyframes is undefined until a reload supplies the action. */
  datatype Animation = Animation(startTime: real, keyframes: Option<Keyframes>)

  /**
   * The parsed actions payload, as far as the viewer reads it; `jointNameIndices`
   * is None when the object has no such property.
   */
  datatype Armature = Armature(
    actions: Dict<RawKeyframes>,
    inverseBindPoses: seq<Matrix>,
    jointNameIndices: Option<map<string, nat>>)

  /**
   * One reload after `JSON.parse`: the key list of `jointNamePositionIndex`,
   * the triangle index list `expand-vertex-data` produces, and the armature.
   */
  datatype Reload = Reload(jointNames: seq<string>, positionIndices: seq<nat>, armature: Armature)

  /** What slot j of the two quaternion uniform arrays receives. */
  datatype JointUniforms = JointUniforms(rotation: seq<real>, translation: seq<real>)

  /**
   * What a call of `draw` does on the GPU side: nothing, the uniform uploads
   * and one draw of `indexCount` indices, or some uploads and then a throw.
   */
  datatype Frame = Skipped | Drawn(uniforms: seq<JointUniforms>, indexCount: nat) | Threw(uniforms: seq<JointUniforms>)

  /**
   * `skeletal-animation-system.interpolateJoints`: from the clock, the joint
   * numbers and the two animations to one dual quaternion per joint. The
   * library is not modelled, so this is a parameter.
   */
  type Interpolation = (real, seq<nat>, Animation, Option<Animation>) -> seq<DualQuat>

  /** `imageHasLoaded && numIndicesToDraw`, with JavaScript truthiness (undefined and 0 are false). */
  predicate ShouldDraw(imageHasLoaded: bool, numIndicesToDraw: Option<nat>) {
    imageHasLoaded && numIndicesToDraw.Some? && numIndicesToDraw.value != 0
  }

  /** The clock after one frame at `currentTime` (milliseconds). */
  function Tick(clockTime: real, lastStartTime: int, currentTime: int): real {
    clockTime + (currentTime - lastStartTime) as real / 1000.0
  }

  /** The clock after frames at each of `times`, starting from `clockTime` at `lastStartTime`. */
  function ClockAfter(clockTime: real, lastStartTime: int, times: seq<int>): real
    decreases |times|
  {
    if times == [] then clockTime
    else ClockAfter(Tick(clockTime, lastStartTime, times[0]), times[0], times[1..])
  }

  /** The per-frame increments telescope: the clock advances by the total elapsed seconds. */
  lemma {:induction false} ClockAfterTelescopes(clockTime: real, lastStartTime: int, times: seq<int>)
    requires times != []
    ensures ClockAfter(clockTime, lastStartTime, times)
         == clockTime + (times[|times| - 1] - lastStartTime) as real / 1000.0
    decreases |times|
  {
    if |times| > 1 {
      ClockAfterTelescopes(Tick(clockTime, lastStartTime, times[0]), times[0], times[1..]);
    }
  }

  /** `[0, 1, ..., NumJoints - 1]`. */
  function JointRange(): (r: seq<nat>)
    ensures |r| == NumJoints && forall i :: 0 <= i < NumJoints ==> r[i] == i
  {
    seq(NumJoints, i => i)
  }

  /** The `jointNums` loop of `draw`. */
  method JointNums() returns (jointNums: seq<nat>)
    ensures jointNums == JointRange()
  {
    jointNums := [];
    var i := 0;
    while i < NumJoints
      invariant 0 <= i <= NumJoints
      invariant |jointNums| == i && forall k :: 0 <= k < i ==> jointNums[k] == k
    {
      jointNums := jointNums + [i];
      i := i + 1;
    }
  }

  /**
   * Slot j of the upload loop runs to the end: the joint has a name
   * (`colladaJointIndicesToName[j].replace`), the armature has a
   * `jointNameIndices` object to look the name up in, and the interpolation
   * gave a dual quaternion for it (`joints[j].slice`). Otherwise the slot throws.
   */
  predicate Usable(names: map<nat, string>, hasNameIndices: bool, joints: seq<DualQuat>, j: nat) {
    j in names && hasNameIndices && j < |joints|
  }

  /** The first slot from `from` on that throws, or NumJoints when there is none. */
  function FirstUnusableJoint(names: map<nat, string>, hasNameIndices: bool, joints: seq<DualQuat>, from: nat): (k: nat)
    requires from <= NumJoints
    ensures from <= k <= NumJoints && (from <= |joints| ==> k <= |joints|)
    ensures forall j: nat :: from <= j < k ==> Usable(names, hasNameIndices, joints, j)
    ensures k < NumJoints ==> !Usable(names, hasNameIndices, joints, k)
    decreases NumJoints - from
  {
    if from == NumJoints then NumJoints
    else if !Usable(names, hasNameIndices, joints, from) then from
    else FirstUnusableJoint(names, hasNameIndices, joints, from + 1)
  }

  /** `FirstUnusableJoint` is the least slot that throws: any slot from `from` on that throws bounds it. */
  lemma FirstUnusableIsFirst(names: map<nat, string>, hasNameIndices: bool, joints: seq<DualQuat>, from: nat, j: nat)
    requires from <= j <= NumJoints
    requires forall i: nat :: from <= i < j ==> Usable(names, hasNameIndices, joints, i)
    requires j == NumJoints || !Usable(names, hasNameIndices, joints, j)
    ensures FirstUnusableJoint(names, hasNameIndices, joints, from) == j
  {
  }

  /** What the first `count` slots receive: slot j gets components 0..3 and 4..7 of `joints[j]`. */
  function UniformsFor(joints: seq<DualQuat>, count: nat): (r: seq<JointUniforms>)
    requires count <= |joints|
    ensures |r| == count
    ensures forall j :: 0 <= j < count ==> r[j].rotation == Slice(joints[j], 0, 4) && r[j].translation == Slice(joints[j], 4, 8)
  {
    seq(count, j requires 0 <= j < count => JointUniforms(Slice(joints[j], 0, 4), Slice(joints[j], 4, 8)))
  }

  /**
   * The upload loop of `draw`: for j = 0, 1, ... look up the joint's name and
   * its index (which is then overwritten with j) and upload `joints[j]` into
   * slot j, until the last slot or the first slot that throws.
   */
  method UploadJointQuaternions(names: map<nat, string>, hasNameIndices: bool, joints: seq<DualQuat>)
    returns (uniforms: seq<JointUniforms>, threw: bool)
    ensures var k := FirstUnusableJoint(names, hasNameIndices, joints, 0);
      uniforms == UniformsFor(joints, k) && threw == (k < NumJoints)
  {
    uniforms := [];
    threw := false;
    var j := 0;
    while j < NumJoints
      invariant 0 <= j <= NumJoints
      invariant forall i: nat :: i < j ==> Usable(names, hasNameIndices, joints, i)
      invariant j <= |joints| && uniforms == UniformsFor(joints, j)
      decreases NumJoints - j
    {
      if !Usable(names, hasNameIndices, joints, j) {
        threw := true;
        break;
      }
      var indexToUse := j;
      uniforms := uniforms + [JointUniforms(Slice(joints[indexToUse], 0, 4), Slice(joints[indexToUse], 4, 8))];
      j := j + 1;
    }
    FirstUnusableIsFirst(names, hasNameIndices, joints, 0, j);
  }

  /**
   * The tables the viewer keeps are those `ws.onmessage` builds from `reload`
   * (the action table as far as its key order), or the initial empty ones
   * when no reload has arrived.
   */
  ghost predicate DerivedFrom(
    reload: Option<Reload>, actions: Dict<Keyframes>, jointIndicesToName: map<nat, string>,
    jointNameIndices: Option<map<string, nat>>, numIndicesToDraw: Option<nat>)
  {
    match reload
    case None =>
      && actions == Dict([], map[]) && jointIndicesToName == map[]
      && jointNameIndices.None? && numIndicesToDraw.None?
    case Some(r) =>
      && actions.keys == r.armature.actions.keys
      && jointIndicesToName == IndicesToNames(r.jointNames)
      && jointNameIndices == r.armature.jointNameIndices
      && numIndicesToDraw == Some(|r.positionIndices|)
  }

  /** The clock reads the seconds elapsed since the page loaded, as of the last frame. */
  ghost predicate ClockInvariant(clockTime: real, lastStartTime: int, pageLoadTime: int) {
    clockTime == (lastStartTime - pageLoadTime) as real / 1000.0
  }

  /** The viewer's module-level state. */
  class Client {
    /** The interpolation library and the matrix-to-dual-quaternion composition. */
    const interpolateJoints: Interpolation
    const skinning: Skinning
    /** The time `lastStartTime` was first read, when the page loaded. */
    ghost const pageLoadTime: int

    var currentAction: string
    var currentAnimation: Animation
    var previousAnimation: Option<Animation>
    var clockTime: real
    var lastStartTime: int
    var imageHasLoaded: bool
    var numIndicesToDraw: Option<nat>
    /** `armature.actions` after the rebuild; no keys before the first reload. */
    var actions: Dict<Keyframes>
    /** `armature.jointNameIndices`; None before the first reload. */
    var jointNameIndices: Option<map<string, nat>>
    /** `colladaJointIndicesToName`; no entries before the first reload. */
    var jointIndicesToName: map<nat, string>
    /** A `requestAnimationFrame(draw)` is pending. */
    var frameRequested: bool
    /** The last reload received. */
    ghost var lastReload: Option<Reload>

    /**
     * The tables derived from a reload are those of the last one; the current
     * animation plays the current action's keyframes; and the clock is the
     * time since the page loaded.
     */
    ghost predicate Valid()
      reads this
    {
      && DerivedFrom(lastReload, actions, jointIndicesToName, jointNameIndices, numIndicesToDraw)
      && actions.Valid()
      && currentAnimation.keyframes == actions.Get(currentAction)
      && ClockInvariant(clockTime, lastStartTime, pageLoadTime)
    }

    /**
     * The action names of the buttons on the page: `renderActionButtons` runs
     * after every rebuild of the action table, so they are always the
     * table's names without "001", in key order.
     */
    function ActionButtons(): seq<string>
      reads this
    {
      ActionButtonNames(actions.keys)
    }

    /**
     * The buttons' classes: `highlightSelectedAction` runs after every change
     * of the buttons or of the current action.
     */
    function ButtonClasses(): seq<string>
      reads this
    {
      ButtonClassNames(ActionButtons(), currentAction)
    }

    /** The page loading: the initial values of the module-level variables, and the first `draw()`. */
    constructor (now: int, interpolateJoints: Interpolation, skinning: Skinning)
      ensures Valid() && frameRequested && lastReload == None
      ensures currentAction == InitialAction && currentAnimation == Animation(0.0, None) && previousAnimation == None
      ensures clockTime == 0.0 && lastStartTime == now && !imageHasLoaded
      ensures ActionButtons() == []
      ensures this.interpolateJoints == interpolateJoints && this.skinning == skinning
    {
      this.interpolateJoints := interpolateJoints;
      this.skinning := skinning;
      pageLoadTime := now;
      currentAction := InitialAction;
      currentAnimation := Animation(0.0, None);
      previousAnimation := None;
      clockTime := 0.0;
      lastStartTime := now;
      imageHasLoaded := false;
      numIndicesToDraw := None;
      actions := Dict([], map[]);
      jointNameIndices := None;
      jointIndicesToName := map[];
      frameRequested := true;
      lastReload := None;
    }

    /** `textureImage.onload`. */
    method OnTextureLoaded()
      requires Valid()
      modifies this`imageHasLoaded
      ensures Valid() && imageHasLoaded
    {
      imageHasLoaded := true;
    }

    /**
     * `ws.onmessage`: rebuild the joint-name table and the action table,
     * refresh the current animation's keyframes keeping its start time,
     * re-render the buttons, and record the index count.
     */
    method OnMessage(reload: Reload)
      requires Valid()
      requires Fits(reload.armature.actions, |reload.armature.inverseBindPoses|)
      modifies this`jointIndicesToName, this`actions, this`jointNameIndices, this`currentAnimation,
        this`numIndicesToDraw, this`lastReload
      ensures Valid() && lastReload == Some(reload)
      ensures jointIndicesToName == IndicesToNames(reload.jointNames)
      ensures actions == ConvertActions(reload.armature.actions, reload.armature.inverseBindPoses, skinning)
      ensures currentAnimation == Animation(old(currentAnimation.startTime), actions.Get(currentAction))
      ensures ActionButtons() == ActionButtonNames(reload.armature.actions.keys)
      ensures numIndicesToDraw == Some(|reload.positionIndices|)
    {
      jointIndicesToName := IndicesToNames(reload.jointNames);
      actions := ConvertActions(reload.armature.actions, reload.armature.inverseBindPoses, skinning);
      jointNameIndices := reload.armature.jointNameIndices;
      currentAnimation := Animation(currentAnimation.startTime, actions.Get(currentAction));
      numIndicesToDraw := Some(|reload.positionIndices|);
      lastReload := Some(reload);
    }

    /**
     * A button's `onclick`: the playing animation becomes the previous one,
     * and the chosen action starts at the current clock.
     */
    method OnActionButtonClick(actionName: string)
      requires Valid() && actionName in ActionButtons()
      modifies this`previousAnimation, this`currentAction, this`currentAnimation
      ensures Valid()
      ensures previousAnimation == Some(old(currentAnimation))
      ensures currentAction == actionName
      ensures currentAnimation == Animation(clockTime, actions.Get(actionName)) && currentAnimation.keyframes.Some?
    {
      ActionButtonNamesMembers(actions.keys);
      assert actionName in actions.entries;
      previousAnimation := Some(Animation(currentAnimation.startTime, actions.Get(currentAction)));
      currentAction := actionName;
      currentAnimation := Animation(clockTime, actions.Get(currentAction));
    }

    /**
     * What the GPU half of `draw` does with the current state: slots 0, 1, ...
     * receive their joint's dual quaternion up to the first slot that throws;
     * with no such slot the indices of the last reload are drawn.
     */
    function SceneFrame(): (frame: Frame)
      reads this
      requires ShouldDraw(imageHasLoaded, numIndicesToDraw)
    {
      var joints := interpolateJoints(clockTime, JointRange(), currentAnimation, previousAnimation);
      var k := FirstUnusableJoint(jointIndicesToName, jointNameIndices.Some?, joints, 0);
      if k < NumJoints then Threw(UniformsFor(joints, k)) else Drawn(UniformsFor(joints, k), numIndicesToDraw.value)
    }

    /**
     * The GPU half of `draw`: interpolate the joints at the clock, upload them
     * slot by slot, and draw unless a slot throws.
     */
    method DrawScene() returns (frame: Frame)
      requires ShouldDraw(imageHasLoaded, numIndicesToDraw)
      ensures frame == SceneFrame()
    {
      var jointNums := JointNums();
      var joints := interpolateJoints(clockTime, jointNums, currentAnimation, previousAnimation);
      var uniforms, threw := UploadJointQuaternions(jointIndicesToName, jointNameIndices.Some?, joints);
      if threw {
        frame := Threw(uniforms);
      } else {
        frame := Drawn(uniforms, numIndicesToDraw.value);
      }
    }

    /**
     * `draw`: advance the clock; when the texture has loaded and a reload with
     * indices has arrived, draw the scene. A throw while drawing ends the call
     * before the next frame is requested, which stops the animation loop.
     */
    method Draw(currentTime: int) returns (frame: Frame)
      requires Valid() && frameRequested
      modifies this`clockTime, this`lastStartTime, this`frameRequested
      ensures Valid()
      ensures clockTime == Tick(old(clockTime), old(lastStartTime), currentTime)
      ensures clockTime == (currentTime - pageLoadTime) as real / 1000.0
      ensures lastStartTime == currentTime
      ensures !ShouldDraw(imageHasLoaded, numIndicesToDraw) ==> frame == Skipped
      ensures ShouldDraw(imageHasLoaded, numIndicesToDraw) ==> frame == SceneFrame()
      ensures frame.Drawn? ==> imageHasLoaded && lastReload.Some? && frame.indexCount == |lastReload.value.positionIndices| > 0
      ensures frameRequested == !frame.Threw?
    {
      var timeElapsed := (currentTime - lastStartTime) as real / 1000.0;
      clockTime := clockTime + timeElapsed;
      lastStartTime := currentTime;

      if ShouldDraw(imageHasLoaded, numIndicesToDraw) {
        frame := DrawScene();
      } else {
        frame := Skipped;
      }
      frameRequested := !frame.Threw?;
    }
  }
}
