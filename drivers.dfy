/**
 * The two per-plant drivers, `create_shading_features` and
 * `create_pollution_features`: for each plant's differences file, skip the
 * plant when its feature file already exists, otherwise build the feature
 * frame and write it when there is one. A plant whose processing raises or
 * yields nothing is skipped and the loop goes on.
 */
module Drivers {
  import opened Wrappers
  import opened Stats
  import opened Frames
  import opened Readings
  import Shading
  import Pollution

  /** The plant id taken from the file name `<id>_differences.csv`. */
  type PlantId = string

  /** One differences file: the plant it belongs to and its contents. */
  datatype Plant = Plant(id: PlantId, input: Input)

  /** An output directory: the file `feature_vectors_<id>.csv` of each plant that has one. */
  class OutputDir {
    var files: map<PlantId, Table>

    constructor (existing: map<PlantId, Table>)
      ensures files == existing
    {
      files := existing;
    }
  }

  /** One iteration: a plant whose file exists is skipped; otherwise its frame, if any, is written. */
  function Step(files: map<PlantId, Table>, plant: Plant, build: Input -> Option<Table>): (r: map<PlantId, Table>)
    ensures forall id :: id in files ==> id in r && r[id] == files[id]
    ensures r.Keys <= files.Keys + {plant.id}
  {
    if plant.id in files then files
    else
      match build(plant.input)
      case None => files
      case Some(t) => files[plant.id := t]
  }

  /** One plant's iteration touches no other plant's file. */
  lemma StepIsolated(files: map<PlantId, Table>, plant: Plant, build: Input -> Option<Table>)
    ensures forall id :: id != plant.id ==>
      (id in Step(files, plant, build) <==> id in files) &&
      (id in files ==> Step(files, plant, build)[id] == files[id])
    ensures plant.id in files || build(plant.input).None? ==> Step(files, plant, build) == files
  {
  }

  /** The directory after the loop has visited `plants` in order. */
  function Process(files: map<PlantId, Table>, plants: seq<Plant>, build: Input -> Option<Table>): (r: map<PlantId, Table>)
    ensures r.Keys <= files.Keys + set i | 0 <= i < |plants| :: plants[i].id
  {
    if |plants| == 0 then files
    else Step(Process(files, Init(plants), build), Last(plants), build)
  }

  /** A file that existed before the run is never overwritten. */
  lemma {:induction false} ProcessKeepsExisting(files: map<PlantId, Table>, plants: seq<Plant>, build: Input -> Option<Table>)
    ensures forall id :: id in files ==> id in Process(files, plants, build) && Process(files, plants, build)[id] == files[id]
  {
    if |plants| > 0 {
      ProcessKeepsExisting(files, Init(plants), build);
    }
  }

  /**
   * After the run a plant has a file exactly when it had one before or one
   * of its differences files yields a frame.
   */
  lemma {:induction false} ProcessFiles(files: map<PlantId, Table>, plants: seq<Plant>, build: Input -> Option<Table>)
    ensures forall id :: id in Process(files, plants, build) <==>
      id in files || exists i :: 0 <= i < |plants| && plants[i].id == id && build(plants[i].input).Some?
  {
    if |plants| > 0 {
      var init := Init(plants);
      ProcessFiles(files, init, build);
      assert forall i :: 0 <= i < |init| ==> init[i] == plants[i];
      forall id | id in files || exists i :: 0 <= i < |plants| && plants[i].id == id && build(plants[i].input).Some?
        ensures id in Process(files, plants, build)
      {
        if id !in files && id !in Process(files, init, build) {
          var i :| 0 <= i < |plants| && plants[i].id == id && build(plants[i].input).Some?;
          assert i == |plants| - 1;
        }
      }
    }
  }

  /**
   * A plant without a file before the run gets the frame of the first of its
   * differences files that yields one.
   */
  lemma {:induction false} ProcessWritesFirstFrame(files: map<PlantId, Table>, plants: seq<Plant>, build: Input -> Option<Table>, i: nat)
    requires i < |plants| && plants[i].id !in files && build(plants[i].input).Some?
    requires forall j :: 0 <= j < i && plants[j].id == plants[i].id ==> build(plants[j].input).None?
    ensures plants[i].id in Process(files, plants, build)
    ensures Process(files, plants, build)[plants[i].id] == build(plants[i].input).value
  {
    var id := plants[i].id;
    var init := Init(plants);
    assert forall j :: 0 <= j < |init| ==> init[j] == plants[j];
    if i < |plants| - 1 {
      ProcessWritesFirstFrame(files, init, build, i);
    } else {
      ProcessFiles(files, init, build);
      assert id !in Process(files, init, build);
    }
  }

  /** A run changes nothing when every plant that yields a frame already has a file. */
  lemma {:induction false} ProcessSettled(files: map<PlantId, Table>, plants: seq<Plant>, build: Input -> Option<Table>)
    requires forall i :: 0 <= i < |plants| && build(plants[i].input).Some? ==> plants[i].id in files
    ensures Process(files, plants, build) == files
  {
    if |plants| > 0 {
      assert forall i :: 0 <= i < |plants| - 1 ==> Init(plants)[i] == plants[i];
      ProcessSettled(files, Init(plants), build);
    }
  }

  /** Running a driver a second time over the same files changes nothing. */
  lemma ProcessIdempotent(files: map<PlantId, Table>, plants: seq<Plant>, build: Input -> Option<Table>)
    ensures Process(Process(files, plants, build), plants, build) == Process(files, plants, build)
  {
    ProcessFiles(files, plants, build);
    ProcessSettled(Process(files, plants, build), plants, build);
  }

  /** The frame a plant's shading iteration writes, if any. */
  function ShadingBuild(sqrt: real -> real): Input -> Option<Table>
  {
    (input: Input) => Shading.ShadingOutput(input, sqrt)
  }

  /** The frame a plant's pollution iteration writes, if any. */
  function PollutionBuild(sqrt: real -> real): Input -> Option<Table>
  {
    (input: Input) => Pollution.PollutionOutput(input, sqrt)
  }

  /** `create_shading_features` over the plants' differences files, writing into `dir`. */
  method CreateShadingFeatures(plants: seq<Plant>, dir: OutputDir, sqrt: real -> real)
    modifies dir
    ensures dir.files == Process(old(dir.files), plants, ShadingBuild(sqrt))
  {
    for i := 0 to |plants|
      invariant dir.files == Process(old(dir.files), plants[..i], ShadingBuild(sqrt))
    {
      assert Init(plants[..i + 1]) == plants[..i];
      var plant := plants[i];
      if plant.id in dir.files {
        continue;
      }
      var out := Shading.ShadingPlant(plant.input, sqrt);
      if out.Some? {
        dir.files := dir.files[plant.id := out.value];
      }
    }
    assert plants[..|plants|] == plants;
  }

  /** `create_pollution_features` over the plants' differences files, writing into `dir`. */
  method CreatePollutionFeatures(plants: seq<Plant>, dir: OutputDir, sqrt: real -> real)
    modifies dir
    ensures dir.files == Process(old(dir.files), plants, PollutionBuild(sqrt))
  {
    for i := 0 to |plants|
      invariant dir.files == Process(old(dir.files), plants[..i], PollutionBuild(sqrt))
    {
      assert Init(plants[..i + 1]) == plants[..i];
      var plant := plants[i];
      if plant.id in dir.files {
        continue;
      }
      var out := Pollution.PollutionPlant(plant.input, sqrt);
      if out.Some? {
        dir.files := dir.files[plant.id := out.value];
      }
    }
    assert plants[..|plants|] == plants;
  }
}
