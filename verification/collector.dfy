/**
 * The collection step of index.js: `collectMetadataAsync` keeps the
 * directory entries whose names end in `.json` (any letter case), runs the
 * per-file transformation on each through `Promise.all`, and
 * `writeResultsAsync` wraps the tags as `{version: 1, tags}`.
 *
 * The directory listing and the file contents are parameters: a listing is
 * a sequence of entries in `readdir` order, each with its parsed contents.
 */
module Collector {
  import opened Wrappers
  import opened Descriptors
  import opened Naming
  import opened Transformer

  /** One directory entry together with the descriptor its file holds. */
  datatype MetadataFile = MetadataFile(name: string, component: Component)

  /** `/\.json$/i`: the name ends in `.json`, letters compared case-insensitively. */
  predicate IsJsonFileName(name: string)
    ensures IsJsonFileName(name) ==> |name| >= 5 && name[|name| - 5] == '.'
  {
    |name| >= 5 &&
    var tail := name[|name| - 5..];
    assert Lower(tail)[0] == ToLower(tail[0]) && ".json"[0] == '.';
    Lower(tail) == ".json"
  }

  /** `files.filter(file => file.match(MATCH_JSON_FILE))`. */
  function JsonFiles(files: seq<MetadataFile>): (r: seq<MetadataFile>)
    ensures |r| <= |files|
  {
    if files == [] then []
    else (if IsJsonFileName(files[0].name) then [files[0]] else []) + JsonFiles(files[1..])
  }

  /** `kept.map(proccessMetadataFileAsync)`: the outcome of each file, in listing order. */
  function Outcomes(files: seq<MetadataFile>): (r: seq<Result<ComponentTag, Failure>>)
    ensures |r| == |files|
  {
    seq(|files|, i requires 0 <= i < |files| => Transform(files[i].component))
  }

  /** `Promise.all`: every value in order when all outcomes succeed, otherwise a rejection. */
  function All(outcomes: seq<Result<ComponentTag, Failure>>): (r: Result<seq<ComponentTag>, Failure>)
    ensures r.Success? ==> |r.value| == |outcomes|
  {
    if outcomes == [] then Success([])
    else
      match outcomes[0]
      case Failure(e) => Failure(e)
      case Success(tag) =>
        match All(outcomes[1..])
        case Failure(e) => Failure(e)
        case Success(tags) => Success([tag] + tags)
  }

  /** `Promise.all(kept.map(proccessMetadataFileAsync))`. */
  function ProcessAll(files: seq<MetadataFile>): (r: Result<seq<ComponentTag>, Failure>)
    ensures r.Success? ==> |r.value| == |files|
  {
    All(Outcomes(files))
  }

  /** `collectMetadataAsync` over a given listing. */
  function CollectMetadata(files: seq<MetadataFile>): (r: Result<seq<ComponentTag>, Failure>)
    ensures r.Success? ==> |r.value| == |JsonFiles(files)| <= |files|
  {
    ProcessAll(JsonFiles(files))
  }

  /** The document `writeResultsAsync` serialises: `{version: 1, tags}`. */
  function BuildDocument(files: seq<MetadataFile>): (r: Result<TagsDocument, Failure>)
    ensures r.Success? <==> CollectMetadata(files).Success?
    ensures r.Success? ==> r.value.version == 1 && r.value.tags == CollectMetadata(files).value
  {
    match CollectMetadata(files)
    case Failure(e) => Failure(e)
    case Success(tags) => Success(TagsDocument(1, tags))
  }

  // ----- The `.json` filter -----

  /** The regular expression compared character by character: `.`, then j, s, o, n in either case. */
  lemma {:induction false} JsonFileNameByCharacters(name: string)
    ensures IsJsonFileName(name) <==>
      && |name| >= 5
      && name[|name| - 5] == '.'
      && name[|name| - 4] in {'j', 'J'}
      && name[|name| - 3] in {'s', 'S'}
      && name[|name| - 2] in {'o', 'O'}
      && name[|name| - 1] in {'n', 'N'}
  {
    if |name| >= 5 {
      var low := Lower(name[|name| - 5..]);
      assert low == [ToLower(name[|name| - 5]), ToLower(name[|name| - 4]), ToLower(name[|name| - 3]),
                     ToLower(name[|name| - 2]), ToLower(name[|name| - 1])];
    }
  }

  /** Names that match and names that do not: the case of the extension does not matter, the dot does. */
  lemma {:induction false} ExampleJsonFileNames()
    ensures IsJsonFileName("oj-button.json")
    ensures IsJsonFileName("oj-tree.JSON")
    ensures !IsJsonFileName("json")
    ensures !IsJsonFileName("oj-button.js")
    ensures !IsJsonFileName("oj-buttonjson")
  {
    JsonFileNameByCharacters("oj-button.json");
    JsonFileNameByCharacters("oj-tree.JSON");
    JsonFileNameByCharacters("oj-button.js");
    JsonFileNameByCharacters("oj-buttonjson");
  }

  /** A file is kept exactly when its name matches. */
  lemma {:induction false} JsonFilesMembers(files: seq<MetadataFile>)
    ensures forall f :: f in JsonFiles(files) <==> f in files && IsJsonFileName(f.name)
  {
    if files != [] {
      JsonFilesMembers(files[1..]);
      assert files == [files[0]] + files[1..];
    }
  }

  /** Filtering a listing in two parts filters each part and keeps their order. */
  lemma {:induction false} JsonFilesAppend(a: seq<MetadataFile>, b: seq<MetadataFile>)
    ensures JsonFiles(a + b) == JsonFiles(a) + JsonFiles(b)
  {
    if a != [] {
      assert (a + b)[1..] == a[1..] + b;
      JsonFilesAppend(a[1..], b);
    } else {
      assert a + b == b;
    }
  }

  /** One entry is kept when its name matches and dropped otherwise. */
  lemma {:induction false} JsonFilesOne(f: MetadataFile)
    ensures JsonFiles([f]) == if IsJsonFileName(f.name) then [f] else []
  {
    assert [f][1..] == [];
  }

  /** A listing of matching names is kept whole and in order. */
  lemma {:induction false} JsonFilesKeepsAll(files: seq<MetadataFile>)
    requires forall i :: 0 <= i < |files| ==> IsJsonFileName(files[i].name)
    ensures JsonFiles(files) == files
  {
    if files != [] {
      JsonFilesKeepsAll(files[1..]);
    }
  }

  // ----- Promise.all -----

  /** `Promise.all` resolves exactly when every outcome does, and then holds the values position by position. */
  lemma {:induction false} AllSpec(outcomes: seq<Result<ComponentTag, Failure>>)
    ensures All(outcomes).Success? <==> forall i :: 0 <= i < |outcomes| ==> outcomes[i].Success?
    ensures All(outcomes).Success? ==> forall i :: 0 <= i < |outcomes| ==> All(outcomes).value[i] == outcomes[i].value
  {
    if outcomes != [] {
      AllSpec(outcomes[1..]);
      if outcomes[0].Success? && All(outcomes[1..]).Success? {
        var tags := All(outcomes).value;
        forall i | 0 <= i < |outcomes|
          ensures tags[i] == outcomes[i].value
        {
          if i > 0 {
            assert outcomes[i] == outcomes[1..][i - 1];
          }
        }
      } else if outcomes[0].Success? {
        var i :| 0 <= i < |outcomes[1..]| && !outcomes[1..][i].Success?;
        assert outcomes[i + 1] == outcomes[1..][i];
      }
    }
  }

  /**
   * The run succeeds exactly when every file transforms, and then yields
   * one tag per file, position by position.
   */
  lemma {:induction false} ProcessAllSpec(files: seq<MetadataFile>)
    ensures ProcessAll(files).Success? <==> forall i :: 0 <= i < |files| ==> Transform(files[i].component).Success?
    ensures ProcessAll(files).Success? ==>
      forall i :: 0 <= i < |files| ==> ProcessAll(files).value[i] == Transform(files[i].component).value
  {
    var outcomes := Outcomes(files);
    AllSpec(outcomes);
    assert forall i :: 0 <= i < |files| ==> outcomes[i] == Transform(files[i].component);
  }

  /** Settling two lists of outcomes one after the other gives the values of both, in order. */
  lemma {:induction false} AllAppend(a: seq<Result<ComponentTag, Failure>>, b: seq<Result<ComponentTag, Failure>>)
    ensures All(a + b).Success? <==> All(a).Success? && All(b).Success?
    ensures All(a + b).Success? ==> All(a + b).value == All(a).value + All(b).value
  {
    if a != [] {
      assert (a + b)[1..] == a[1..] + b;
      AllAppend(a[1..], b);
      if All(a + b).Success? {
        assert All(a + b).value == [a[0].value] + All(a[1..] + b).value;
      }
    } else {
      assert a + b == b;
    }
  }

  /** Running two listings one after the other gives the tags of both, in order. */
  lemma {:induction false} ProcessAllAppend(a: seq<MetadataFile>, b: seq<MetadataFile>)
    ensures ProcessAll(a + b).Success? <==> ProcessAll(a).Success? && ProcessAll(b).Success?
    ensures ProcessAll(a + b).Success? ==> ProcessAll(a + b).value == ProcessAll(a).value + ProcessAll(b).value
  {
    assert Outcomes(a + b) == Outcomes(a) + Outcomes(b);
    AllAppend(Outcomes(a), Outcomes(b));
  }

  /** A single file gives its own tag, or the failure of its transformation. */
  lemma {:induction false} ProcessAllOne(f: MetadataFile)
    ensures ProcessAll([f]) == if Transform(f.component).Success? then Success([Transform(f.component).value]) else Failure(EmptyIdentifier)
  {
    var o := Outcomes([f]);
    assert o == [Transform(f.component)];
    assert o[1..] == [];
    assert All([]) == Success([]);
    if Transform(f.component).Success? {
      var t := Transform(f.component).value;
      assert [t] + [] == [t];
    }
  }

  // ----- The whole run -----

  /** An empty directory gives `{version: 1, tags: []}`. */
  lemma {:induction false} EmptyDirectory()
    ensures BuildDocument([]) == Success(TagsDocument(1, []))
  {
  }

  /**
   * The document holds one tag per matching file, in listing order, when
   * every matching file transforms; a single failing matching file fails
   * the whole run.
   */
  lemma {:induction false} BuildDocumentSpec(files: seq<MetadataFile>, kept: seq<MetadataFile>)
    requires kept == JsonFiles(files)
    ensures BuildDocument(files).Success? <==> forall i :: 0 <= i < |kept| ==> Transform(kept[i].component).Success?
    ensures BuildDocument(files).Success? ==>
      && BuildDocument(files).value.version == 1
      && |BuildDocument(files).value.tags| == |kept|
      && forall i :: 0 <= i < |kept| ==> BuildDocument(files).value.tags[i] == Transform(kept[i].component).value
  {
    ProcessAllSpec(kept);
  }

  /** One matching file whose descriptor throws rejects the whole run. */
  lemma {:induction false} FailingFileFailsRun(files: seq<MetadataFile>, f: MetadataFile)
    requires f in files && IsJsonFileName(f.name) && Transform(f.component).Failure?
    ensures BuildDocument(files).Failure?
  {
    var kept := JsonFiles(files);
    JsonFilesMembers(files);
    BuildDocumentSpec(files, kept);
    var i :| 0 <= i < |kept| && kept[i] == f;
  }

  /** An entry whose name does not match leaves the document unchanged, wherever it stands. */
  lemma {:induction false} NonJsonEntryIgnored(a: seq<MetadataFile>, f: MetadataFile, b: seq<MetadataFile>)
    requires !IsJsonFileName(f.name)
    ensures BuildDocument(a + [f] + b) == BuildDocument(a + b)
  {
    JsonFilesAppend(a + [f], b);
    JsonFilesAppend(a, [f]);
    JsonFilesAppend(a, b);
    JsonFilesOne(f);
    assert JsonFiles(a) + [] == JsonFiles(a);
  }

  /**
   * A matching entry adds its own tag at its place in the listing order, and
   * the run fails when either the earlier entries or this one fail.
   */
  lemma {:induction false} JsonEntryAppended(a: seq<MetadataFile>, f: MetadataFile)
    requires IsJsonFileName(f.name)
    ensures BuildDocument(a + [f]) ==
      if BuildDocument(a).Success? && Transform(f.component).Success? then
        Success(TagsDocument(1, BuildDocument(a).value.tags + [Transform(f.component).value]))
      else Failure(EmptyIdentifier)
  {
    JsonFilesAppend(a, [f]);
    JsonFilesOne(f);
    ProcessAllAppend(JsonFiles(a), [f]);
    ProcessAllOne(f);
    if BuildDocument(a + [f]).Failure? {
      assert BuildDocument(a + [f]).error.EmptyIdentifier?;
    }
  }
}
