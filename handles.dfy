/** The inference-handle table: `nextHandle` hands out integer handles with
    `nextHandle++` and `modelMap` holds the engine created under each one.
    The engine itself is opaque; it is represented by the configuration it
    was built with. Whether the engine's constructor or its `close()`
    succeeds is a parameter. */
module Handles {
  import opened Kotlin

  /** An `LlmInferenceModel` and the settings it was created with. */
  datatype Engine = Engine(modelPath: string, maxTokens: Int32, topK: Int32, randomSeed: Int32)

  /** The defaults `createModelFromDownloaded` uses for options left out. */
  const DEFAULT_MAX_TOKENS: Int32 := 1024
  const DEFAULT_TOP_K: Int32 := 40
  const DEFAULT_RANDOM_SEED: Int32 := 42

  /** `option ?: default`. */
  function OrDefault(option: Option<Int32>, default: Int32): (r: Int32)
    ensures option.Some? ==> r == option.value
    ensures option.None? ==> r == default
  {
    if option.Some? then option.value else default
  }

  class HandleTable {
    /** The next handle to hand out; a Kotlin `Int`. */
    var nextHandle: Int32
    /** `modelMap`: handle to engine. */
    var models: map<int, Engine>
    /** How many handles have been handed out. */
    ghost var issued: nat

    /** Handles are numbered from 1 in order of allocation; until the
        counter has passed `Int.MAX_VALUE`, every handle in the table is one
        already handed out, below `nextHandle`. */
    ghost predicate Valid()
      reads this
    {
      && nextHandle == WrapInt(1 + issued)
      && (issued < INT_MAX ==> forall h :: h in models ==> 1 <= h < nextHandle)
    }

    /** A module with no model loaded: `nextHandle = 1`. */
    constructor()
      ensures Valid()
      ensures nextHandle == 1 && models == map[] && issued == 0
    {
      nextHandle := 1;
      models := map[];
      issued := 0;
    }

    /** `nextHandle++`: the current counter, which then moves on by one with
        `Int` wrap-around. Before the counter wraps, the handle is fresh. */
    method Allocate() returns (h: Int32)
      requires Valid()
      modifies this`nextHandle, this`issued
      ensures Valid()
      ensures h == old(nextHandle) && issued == old(issued) + 1
      ensures nextHandle == WrapInt(h + 1)
      ensures old(issued) < INT_MAX ==> h == old(issued) + 1 && h !in models
    {
      h := nextHandle;
      nextHandle := WrapInt(nextHandle as int + 1);
      issued := issued + 1;
    }

    /** `createModel`: a handle is taken first; if the engine cannot be
        built the promise is rejected with `MODEL_CREATION_FAILED` and the
        handle is lost, otherwise the engine is stored under it. */
    method CreateModel(modelPath: string, maxTokens: Int32, topK: Int32, randomSeed: Int32,
                       builds: bool) returns (r: Reply<Int32>)
      requires Valid()
      modifies this
      ensures Valid()
      ensures issued == old(issued) + 1 && nextHandle == WrapInt(old(nextHandle) + 1)
      ensures builds ==> r == Resolved(old(nextHandle))
                         && models == old(models)[r.value := Engine(modelPath, maxTokens, topK, randomSeed)]
      ensures builds && old(issued) < INT_MAX ==> r.value !in old(models)
      ensures !builds ==> r == Rejected(MODEL_CREATION_FAILED) && models == old(models)
    {
      var h := Allocate();
      if !builds {
        return Rejected(MODEL_CREATION_FAILED);
      }
      models := models[h := Engine(modelPath, maxTokens, topK, randomSeed)];
      r := Resolved(h);
    }

    /** `createModelFromAsset`: the asset is copied to internal storage
        before any handle is taken, so a failed copy leaves the table
        untouched; after that it behaves as `createModel` on the copy. */
    method CreateModelFromAsset(copiedPath: Option<string>, maxTokens: Int32, topK: Int32,
                                randomSeed: Int32, builds: bool) returns (r: Reply<Int32>)
      requires Valid()
      modifies this
      ensures Valid()
      ensures copiedPath.None? ==> r == Rejected(MODEL_CREATION_FAILED) && unchanged(this)
      ensures copiedPath.Some? ==> issued == old(issued) + 1 && nextHandle == WrapInt(old(nextHandle) + 1)
      ensures copiedPath.Some? && builds ==>
                r == Resolved(old(nextHandle))
                && models == old(models)[r.value := Engine(copiedPath.value, maxTokens, topK, randomSeed)]
      ensures copiedPath.Some? && !builds ==> r == Rejected(MODEL_CREATION_FAILED) && models == old(models)
    {
      if copiedPath.None? {
        return Rejected(MODEL_CREATION_FAILED);
      }
      r := CreateModel(copiedPath.value, maxTokens, topK, randomSeed, builds);
    }

    /** `createModelFromDownloaded`: a model not in the directory is
        rejected with `ERR_MODEL_NOT_FOUND` before any handle is taken;
        otherwise a handle is taken and an engine built with the given
        options or their defaults, and a failed build is rejected with
        `ERR_CREATE_MODEL`. */
    method CreateModelFromDownloaded(modelPath: string, fileExists: bool, maxTokens: Option<Int32>,
                                     topK: Option<Int32>, randomSeed: Option<Int32>,
                                     builds: bool) returns (r: Reply<Int32>)
      requires Valid()
      modifies this
      ensures Valid()
      ensures !fileExists ==> r == Rejected(ERR_MODEL_NOT_FOUND) && unchanged(this)
      ensures fileExists ==> issued == old(issued) + 1 && nextHandle == WrapInt(old(nextHandle) + 1)
      ensures fileExists && builds ==>
                && r == Resolved(old(nextHandle))
                && var engine := Engine(modelPath, OrDefault(maxTokens, DEFAULT_MAX_TOKENS),
                                        OrDefault(topK, DEFAULT_TOP_K),
                                        OrDefault(randomSeed, DEFAULT_RANDOM_SEED));
                   models == old(models)[r.value := engine]
      ensures fileExists && !builds ==> r == Rejected(ERR_CREATE_MODEL) && models == old(models)
    {
      if !fileExists {
        return Rejected(ERR_MODEL_NOT_FOUND);
      }
      var h := Allocate();
      if !builds {
        return Rejected(ERR_CREATE_MODEL);
      }
      var engine := Engine(modelPath, OrDefault(maxTokens, DEFAULT_MAX_TOKENS),
                           OrDefault(topK, DEFAULT_TOP_K), OrDefault(randomSeed, DEFAULT_RANDOM_SEED));
      models := models[h := engine];
      r := Resolved(h);
    }

    /** `releaseModel`: an unknown handle is rejected with `INVALID_HANDLE`;
        an engine that fails to close is rejected with `RELEASE_FAILED` and
        stays in the table; otherwise it is removed and the promise resolved
        with `true`. Only the released handle ever leaves the table. */
    method ReleaseModel(handle: Int32, closes: bool) returns (r: Reply<bool>)
      requires Valid()
      modifies this`models
      ensures Valid()
      ensures handle !in old(models) ==> r == Rejected(INVALID_HANDLE) && models == old(models)
      ensures handle in old(models) && !closes ==> r == Rejected(RELEASE_FAILED) && models == old(models)
      ensures handle in old(models) && closes ==> r == Resolved(true) && models == old(models) - {handle}
      ensures handle !in models
              || (models == old(models) && r.Rejected?)
    {
      if handle !in models {
        return Rejected(INVALID_HANDLE);
      }
      if !closes {
        return Rejected(RELEASE_FAILED);
      }
      models := models - {handle};
      r := Resolved(true);
    }
  }
}
