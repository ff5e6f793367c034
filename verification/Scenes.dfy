/** The scene list with its cursor. */
module Scenes {
  import opened Dmx
  import SceneFile

  type Universe = seq<int>

  ghost predicate IsUniverse(u: Universe) { |u| == SLOTS && AllBytes(u) }

  /** The cursor walks the cycle -1, 0, .., n-1; -1 is the current look, not a stored scene. */
  function NextIndex(i: int, n: nat): int { if i + 1 >= n || n == 0 then -1 else i + 1 }

  function LastIndex(i: int, n: nat): int {
    if i == -1 && n != 0 then n - 1 else if i - 1 < 0 || n == 0 then -1 else i - 1
  }

  function Walk(i: int, n: nat, steps: nat): int { if steps == 0 then i else NextIndex(Walk(i, n, steps - 1), n) }

  /** One step right and one step left undo each other. */
  lemma StepsUndo(i: int, n: nat)
    requires -1 <= i < n
    ensures -1 <= NextIndex(i, n) < n && -1 <= LastIndex(i, n) < n
    ensures LastIndex(NextIndex(i, n), n) == i && NextIndex(LastIndex(i, n), n) == i
  {
  }

  /** Walking right visits the indices in cyclic order, so n + 1 steps lead back. */
  lemma {:induction false} WalkIsCyclic(i: int, n: nat, steps: nat)
    requires -1 <= i < n && steps <= n + 1
    ensures Walk(i, n, steps) == if i + steps < n then i + steps else i + steps - (n + 1)
  {
    if steps > 0 {
      WalkIsCyclic(i, n, steps - 1);
    }
  }

  class SceneManager {
    var scenes: seq<Universe>
    var current: Universe
    var index: int
    var file: string  // the text of the scene file

    /** The scene file denotes the scene list. */
    ghost predicate Filed() reads this { SceneFile.FileOf(file, scenes) }

    ghost predicate Valid() reads this {
      && -1 <= index < |scenes| && IsUniverse(current)
      && (forall i | 0 <= i < |scenes| :: IsUniverse(scenes[i]))
    }

    constructor (vals: Universe, loaded: seq<Universe>)
      requires IsUniverse(vals) && forall i | 0 <= i < |loaded| :: IsUniverse(loaded[i])
      ensures Valid() && current == vals && scenes == loaded && index == -1 && Filed()
    {
      scenes, current, index, file := loaded, vals, -1, "";
      new;
      UpdateFile();
    }

    method UpdateFile()
      requires Valid()
      modifies this`file
      ensures Valid() && Filed()
    {
      file := SceneFile.UpdateSceneFile(scenes);
      SceneFile.WrittenFileReadsBack(scenes);
    }

    /** The scene under the cursor. */
    ghost function Shown(): Universe
      requires Valid()
      reads this
    {
      if index == -1 then current else scenes[index]
    }

    method GetNextScene() returns (s: Universe)
      requires Valid()
      modifies this`index
      ensures Valid() && index == NextIndex(old(index), |scenes|) && s == Shown()
    {
      index := index + 1;
      if index >= |scenes| || |scenes| == 0 {
        index := -1;
        return current;
      }
      return scenes[index];
    }

    method GetLastScene() returns (s: Universe)
      requires Valid()
      modifies this`index
      ensures Valid() && index == LastIndex(old(index), |scenes|) && s == Shown()
    {
      if index == -1 && |scenes| != 0 {
        index := |scenes| - 1;
        return scenes[index];
      }
      index := index - 1;
      if index < 0 || |scenes| == 0 {
        index := -1;
        return current;
      }
      return scenes[index];
    }

    method AddScene(vals: Universe)
      requires Valid() && IsUniverse(vals)
      modifies this`scenes
      ensures Valid() && scenes == old(scenes) + [vals]
    {
      scenes := scenes + [vals];
    }

    /** Delete the scene under the cursor, if it is on one, and leave the cursor at -1. */
    method DeleteScene()
      requires Valid()
      modifies this`scenes, this`index
      ensures Valid() && index == -1
      ensures scenes == if old(index) == -1 then old(scenes) else old(scenes)[..old(index)] + old(scenes)[old(index) + 1..]
    {
      if index != -1 {
        scenes := scenes[..index] + scenes[index + 1..];
        index := -1;
      }
    }

    /** Delete the scene at `i`.  The cursor does not move, so it can be left past the end. */
    method DeleteSceneAt(i: int)
      requires Valid()
      modifies this`scenes
      ensures Valid() <==> index < |scenes|
      ensures scenes == if 0 <= i < |old(scenes)| then old(scenes)[..i] + old(scenes)[i + 1..] else old(scenes)
    {
      if i >= |scenes| || i < 0 {
        return;
      }
      scenes := scenes[..i] + scenes[i + 1..];
    }

    method SetCurrentScene(vals: Universe)
      requires Valid() && IsUniverse(vals)
      modifies this`current, this`index
      ensures Valid() && current == vals && index == -1
    {
      index := -1;
      current := vals;
    }
  }
}
