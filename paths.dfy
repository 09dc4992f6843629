/**
 * The change handler's file names: every output of one export is named after
 * the part of the changed file's path before its first ".blend".
 */
module ExportPaths {
  import opened Js

  const BlendExtension := ".blend"

  /** The three files one change produces. */
  datatype Outputs = Outputs(colladaPath: string, jsonPath: string, actionPath: string)

  /**
   * `blenderFilePath.split('.blend')[0]`: the text before the first ".blend",
   * or the whole path when it contains none.
   */
  function ModelName(blenderFilePath: string): (r: string)
    ensures |r| <= |blenderFilePath| && r == blenderFilePath[..|r|]
    ensures forall j: nat :: j < |r| ==> !OccursAt(blenderFilePath, BlendExtension, j)
    ensures r == blenderFilePath || OccursAt(blenderFilePath, BlendExtension, |r|)
  {
    match IndexOf(blenderFilePath, BlendExtension)
    case Some(i) => blenderFilePath[..i]
    case None => blenderFilePath
  }

  /** The Collada, model JSON and actions JSON paths derived from the changed file. */
  function DeriveOutputs(blenderFilePath: string): Outputs {
    var modelName := ModelName(blenderFilePath);
    Outputs(modelName + ".dae", modelName + ".json", modelName + "-actions.json")
  }

  /**
   * The shell command the handler runs first. It names `model.blend` whatever
   * file changed, and passes the actions and Collada output paths.
   */
  function ExportCommand(o: Outputs): string {
    "blender model.blend --background --python `./node_modules/blender-iks-to-fks/bin/ik2fk.js` "
    + "--python `./node_modules/blender-actions-to-json/cmd.js` --python blender-to-dae.py -- "
    + o.actionPath + " " + o.colladaPath
  }

  /** The shell command that turns the Collada file into the model JSON file. */
  function ConvertCommand(o: Outputs): string {
    "cat " + o.colladaPath + " | node ./node_modules/collada-dae-parser/bin/dae2json.js > " + o.jsonPath
  }

  /** ".blend" has its only '.' in front, so an occurrence cannot straddle the end of `name`. */
  lemma {:induction false} NoStraddle(name: string, rest: string, j: nat)
    requires forall i: nat :: !OccursAt(name, BlendExtension, i)
    requires j < |name|
    ensures !OccursAt(name + BlendExtension + rest, BlendExtension, j)
  {
    var s := name + BlendExtension + rest;
    if j + |BlendExtension| <= |name| {
      assert s[j..j + |BlendExtension|] == name[j..j + |BlendExtension|];
      assert !OccursAt(name, BlendExtension, j);
    } else if j + |BlendExtension| <= |s| {
      var d := |name| - j;
      assert s[j..j + |BlendExtension|][d] == s[|name|] == '.';
      assert BlendExtension[d] != '.';
    }
  }

  /** Splitting `name + ".blend" + rest` gives back `name` when `name` has no ".blend" of its own. */
  lemma {:induction false} ModelNameOfBlendPath(name: string, rest: string)
    requires forall i: nat :: !OccursAt(name, BlendExtension, i)
    ensures ModelName(name + BlendExtension + rest) == name
  {
    var s := name + BlendExtension + rest;
    assert s[|name|..|name| + |BlendExtension|] == BlendExtension;
    assert OccursAt(s, BlendExtension, |name|);
    forall j: nat | j < |name|
      ensures !OccursAt(s, BlendExtension, j)
    {
      NoStraddle(name, rest, j);
    }
    assert s[..|name|] == name;
  }

  /**
   * For a path that contains ".blend" (every path the watcher reports), the
   * three outputs are pairwise different and none of them is the watched file.
   */
  lemma OutputsAreDistinct(blenderFilePath: string)
    requires IndexOf(blenderFilePath, BlendExtension).Some?
    ensures var o := DeriveOutputs(blenderFilePath);
      && o.colladaPath != o.jsonPath && o.jsonPath != o.actionPath && o.colladaPath != o.actionPath
      && blenderFilePath != o.colladaPath && blenderFilePath != o.jsonPath && blenderFilePath != o.actionPath
  {
    var n := ModelName(blenderFilePath);
    var o := DeriveOutputs(blenderFilePath);
    assert OccursAt(blenderFilePath, BlendExtension, |n|);
    assert blenderFilePath[|n|] == '.';
    assert o.colladaPath[|n|] == '.' && o.colladaPath[|n| + 1] == 'd';
    assert o.jsonPath[|n|] == '.' && o.jsonPath[|n| + 1] == 'j';
    assert o.actionPath[|n|] == '-';
    assert blenderFilePath[|n| + 1] == 'b';
  }
}
