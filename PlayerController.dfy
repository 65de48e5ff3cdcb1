/**
  The benchmark driver: a player controller that switches between scenes and
  camera positions on input, starts the performance logger on request, and in
  simulation mode visits every scene for a fixed time, sampling each one, and
  then stops.
 */
module Controller {
  import opened LogFiles
  import opened Performance

  /** C++ `a / b` for b > 0: division truncated toward zero. */
  function CppQuotient(a: int, b: int): int
    requires b > 0
  {
    if a >= 0 then a / b else -((-a) / b)
  }

  /** C++ `a % b` for b > 0: what truncating division leaves, with the sign of a. */
  function CppRemainder(a: int, b: int): (r: int)
    requires b > 0
    ensures a >= 0 ==> 0 <= r < b
    ensures a < 0 ==> -b < r <= 0
    ensures a == CppQuotient(a, b) * b + r
  {
    if a >= 0 then a % b else -((-a) % b)
  }

  /** Dafny's `%` by a positive divisor is the remainder of any quotient that leaves one in [0, m). */
  lemma ModUnique(a: int, m: int, q: int, s: int)
    requires m > 0 && 0 <= s < m
    requires a == q * m + s
    ensures a % m == s
  {
    var d, r := a / m, a % m;
    assert a == d * m + r;
    var k := d - q;
    assert k * m == s - r;
    MultipleBounds(k, m);
  }

  /** A non-zero multiple of m is at least m away from zero. */
  lemma MultipleBounds(k: int, m: int)
    requires m > 0
    ensures k >= 1 ==> k * m >= m
    ensures k <= -1 ==> k * m <= -m
  {
    if k >= 1 {
      assert k * m == (k - 1) * m + m;
    } else if k <= -1 {
      assert k * m == (k + 1) * m - m;
    }
  }

  /**
    Index `currentIndex + increment` wrapped into `[0, max)`: unchanged inside the
    range, one past the end wraps to the first index and one before the start to
    the last.
   */
  function GetWrappedIndex(currentIndex: int, increment: int, max: int): (r: int)
    requires max > 0
    ensures currentIndex + increment + max >= 0 ==> 0 <= r < max
    ensures 0 <= currentIndex + increment < max ==> r == currentIndex + increment
    ensures currentIndex + increment == max ==> r == 0
    ensures currentIndex + increment == -1 ==> r == max - 1
  {
    var sum := currentIndex + increment + max;
    assert 0 <= currentIndex + increment < max ==> sum % max == currentIndex + increment by {
      if 0 <= currentIndex + increment < max {
        ModUnique(sum, max, 1, currentIndex + increment);
      }
    }
    assert currentIndex + increment == max ==> sum % max == 0 by {
      if currentIndex + increment == max {
        ModUnique(sum, max, 2, 0);
      }
    }
    assert currentIndex + increment == -1 ==> sum % max == max - 1 by {
      if currentIndex + increment == -1 {
        ModUnique(sum, max, 0, max - 1);
      }
    }
    CppRemainder(sum, max)
  }

  /** A step of at most one from an index in [-1, max), the unset index -1 included, lands in range. */
  lemma StepStaysInRange(currentIndex: int, increment: int, max: int)
    requires max > 0
    requires -1 <= currentIndex < max
    requires -1 <= increment <= 1
    ensures 0 <= GetWrappedIndex(currentIndex, increment, max) < max
  {
    if currentIndex + increment + max < 0 {
      assert max == 1 && currentIndex + increment + max == -1;
      assert CppRemainder(-1, 1) == 0;
    }
  }

  /** A step forward and a step back return to the start, in either order. */
  lemma StepThereAndBack(index: int, max: int)
    requires 0 <= index < max
    ensures GetWrappedIndex(GetWrappedIndex(index, 1, max), -1, max) == index
    ensures GetWrappedIndex(GetWrappedIndex(index, -1, max), 1, max) == index
  {
  }

  /**
    From the unset index -1 a step forward gives the first index, and with two or
    more indices a step back gives the second to last.
   */
  lemma StepFromUnset(max: int)
    requires max > 0
    ensures GetWrappedIndex(-1, 1, max) == 0
    ensures max >= 2 ==> GetWrappedIndex(-1, -1, max) == max - 2
  {
    if max >= 2 {
      ModUnique(max - 2, max, 0, max - 2);
    }
  }

  /** An index that may still be unset (-1) read as the first one. */
  function Defaulted(index: int): (r: nat)
    requires index >= -1
    ensures index == -1 ==> r == 0
    ensures index >= 0 ==> r == index
  {
    if index == -1 then 0 else index
  }

  /** Seconds of simulation after which the logger is started in each scene. */
  const TrackingOffset: real := 20.0

  /** The logger of one controller: a 30 s session, 10% trimmed at each end. */
  const LoggerDuration: real := 30.0
  const LoggerOutlierFraction: real := 0.1

  /** The scene that tracking is allowed from at any position. */
  const FreeScene: int := 4

  class PlayerController {
    /** Process-wide: shared by the controllers of successive levels. */
    var isSimulating: bool
    var currentScene: int
    var accuTime: real
    const simulationTimePerScene: real
    var currentPos: int
    const sceneNames: seq<string>
    const positionCount: nat
    const logger: PerformanceLogger

    /** Scene and position are unset (-1) or valid indices; a simulation has a scene. */
    ghost predicate Valid()
      reads this, logger
    {
      && |sceneNames| > 0
      && -1 <= currentScene < |sceneNames|
      && (isSimulating ==> 0 <= currentScene)
      && -1 <= currentPos && (currentPos >= 0 ==> currentPos < positionCount)
      && logger.Valid()
      && logger.outlierFraction == LoggerOutlierFraction
    }

    /**
      A controller starting play in a level; `scene` and `simulating` are the
      process-wide values left by the previous level, `modeName` the rendering
      mode the logger files its reports under.
     */
    constructor (scene: int, simulating: bool, sceneNames: seq<string>, positionCount: nat, modeName: string)
      requires |sceneNames| > 0
      requires -1 <= scene < |sceneNames|
      requires simulating ==> 0 <= scene
      requires simulating && scene != FreeScene ==> positionCount > 0
      ensures Valid()
      ensures currentScene == scene && isSimulating == simulating && accuTime == 0.0
      ensures simulationTimePerScene == 60.0
      ensures this.sceneNames == sceneNames && this.positionCount == positionCount
      ensures currentPos == if simulating && scene != FreeScene then 0 else -1
      ensures fresh(logger) && !logger.isTracking && logger.statsData == []
      ensures logger.durationSeconds == LoggerDuration
      ensures logger.fileName == sceneNames[Defaulted(scene)] && logger.folderName == modeName
    {
      isSimulating := simulating;
      currentScene := scene;
      accuTime := 0.0;
      simulationTimePerScene := 60.0;
      this.sceneNames := sceneNames;
      this.positionCount := positionCount;
      var startScene := scene;
      if startScene == -1 {
        startScene := 0;
      }
      logger := new PerformanceLogger(LoggerDuration, LoggerOutlierFraction, sceneNames[startScene], modeName);
      currentPos := -1;
      if simulating && scene != FreeScene {
        currentPos := 0;
      }
    }

    /**
      One frame: the logger samples first; in a simulation the logger is started
      in the tracking window, the clock advances, and once the scene's time is up
      the next scene is opened, or the simulation ends after the last one.
      `openLevel` says that the level of `sceneNames[currentScene]` is to be loaded.
     */
    method Tick(deltaTime: real, sample: StatEntry, host: Host) returns (openLevel: bool)
      requires Valid()
      modifies this, logger, host
      ensures Valid()
      ensures currentPos == old(currentPos)
      ensures !old(isSimulating) ==>
                !openLevel && !isSimulating && currentScene == old(currentScene) && accuTime == old(accuTime)
      ensures old(isSimulating) ==> accuTime == old(accuTime) + deltaTime
      ensures old(isSimulating) && TrackingOffset < old(accuTime) < TrackingOffset + 0.5 ==> logger.isTracking
      ensures openLevel <==> old(isSimulating) && accuTime > simulationTimePerScene
      ensures old(isSimulating) && !openLevel ==> isSimulating && currentScene == old(currentScene)
      ensures openLevel && old(currentScene) + 1 < |sceneNames| ==>
                isSimulating && currentScene == old(currentScene) + 1
      ensures openLevel && old(currentScene) + 1 >= |sceneNames| ==> !isSimulating && currentScene == 0
    {
      logger.Update(deltaTime, sample, host);
      openLevel := false;
      if !isSimulating {
        return;
      }
      if TrackingOffset < accuTime < TrackingOffset + 0.5 {
        logger.StartTracking();
      }
      accuTime := accuTime + deltaTime;
      if accuTime > simulationTimePerScene {
        currentScene := currentScene + 1;
        if currentScene >= |sceneNames| {
          currentScene := 0;
          isSimulating := false;
        }
        openLevel := true;
      }
    }

    /** Scene switching on input; refused while simulating or tracking. */
    method SwitchScene(forward: bool) returns (openLevel: bool)
      requires Valid()
      modifies this
      ensures Valid()
      ensures openLevel <==> !old(isSimulating) && !logger.isTracking
      ensures !openLevel ==> unchanged(this)
      ensures openLevel ==>
                currentScene == GetWrappedIndex(old(currentScene), if forward then 1 else -1, |sceneNames|)
                && 0 <= currentScene < |sceneNames|
                && isSimulating == old(isSimulating) && accuTime == old(accuTime) && currentPos == old(currentPos)
    {
      if isSimulating || logger.IsTracking() {
        return false;
      }
      StepStaysInRange(currentScene, if forward then 1 else -1, |sceneNames|);
      currentScene := GetWrappedIndex(currentScene, if forward then 1 else -1, |sceneNames|);
      openLevel := true;
    }

    /** Camera position switching on input; refused while tracking. */
    method SwitchPos(forward: bool)
      requires Valid()
      requires !logger.isTracking ==> positionCount > 0
      modifies this
      ensures Valid()
      ensures old(logger.isTracking) ==> unchanged(this)
      ensures !old(logger.isTracking) ==>
                currentPos == GetWrappedIndex(old(currentPos), if forward then 1 else -1, positionCount)
                && 0 <= currentPos < positionCount
                && isSimulating == old(isSimulating) && currentScene == old(currentScene)
                && accuTime == old(accuTime)
    {
      if logger.IsTracking() {
        return;
      }
      StepStaysInRange(currentPos, if forward then 1 else -1, positionCount);
      currentPos := GetWrappedIndex(currentPos, if forward then 1 else -1, positionCount);
    }

    /**
      Tracking on input: ignored while simulating, refused away from position 0
      except in the free scene, and otherwise the logger is started.
     */
    method TrackStats()
      requires Valid()
      modifies logger
      ensures Valid()
      ensures isSimulating || (currentPos != 0 && currentScene != FreeScene) ==> unchanged(logger)
      ensures !isSimulating && (currentPos == 0 || currentScene == FreeScene) ==>
                logger.isTracking
                && (old(logger.isTracking) ==> unchanged(logger))
                && (!old(logger.isTracking) ==> logger.elapsedTime == 0.0 && logger.statsData == [])
    {
      if isSimulating {
        return;
      }
      if currentPos != 0 && currentScene != FreeScene {
        return;
      }
      logger.StartTracking();
    }

    /** Starts a simulation at the first scene and starts the logger; ignored while simulating. */
    method StartSimulation() returns (openLevel: bool)
      requires Valid()
      modifies this, logger
      ensures Valid()
      ensures openLevel <==> !old(isSimulating)
      ensures old(isSimulating) ==> unchanged(this) && unchanged(logger)
      ensures !old(isSimulating) ==>
                isSimulating && currentScene == 0 && logger.isTracking
                && currentPos == old(currentPos) && accuTime == old(accuTime)
                && (old(logger.isTracking) ==> unchanged(logger))
                && (!old(logger.isTracking) ==> logger.elapsedTime == 0.0 && logger.statsData == [])
    {
      openLevel := false;
      if !isSimulating {
        isSimulating := true;
        logger.StartTracking();
        currentScene := 0;
        openLevel := true;
      }
    }

    /** The scene and position a screenshot is filed under: an unset index reads as the first. */
    method TakeScreenshot() returns (scene: nat, pos: nat)
      requires Valid()
      ensures scene < |sceneNames|
      ensures scene == Defaulted(currentScene) && pos == Defaulted(currentPos)
    {
      var curPos := currentPos;
      if currentPos == -1 {
        curPos := 0;
      }
      var curScene := currentScene;
      if currentScene == -1 {
        curScene := 0;
      }
      scene, pos := curScene, curPos;
    }
  }
}
