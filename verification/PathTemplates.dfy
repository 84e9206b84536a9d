// The comma-joined path_template column: merging the same clean paths again changes nothing, and the
// list keeps first-seen order.
module PathTemplates {
  import opened Common
  import opened Text
  import opened ScanPipeline

  // The templates a column value lists.
  function Parts(t: Option<string>): seq<string> {
    match t
    case None => []
    case Some(s) => NonEmpty(TrimAll(Split(s, ',')))
  }

  predicate Clean(path: string) {
    path != "" && ',' !in path && Trim(path) == path
  }

  predicate AllClean(paths: seq<string>) {
    forall i :: 0 <= i < |paths| ==> Clean(paths[i])
  }

  function AddOnce(parts: seq<string>, path: string): seq<string> {
    if path in parts then parts else parts + [path]
  }

  function MergeAll(t: Option<string>, paths: seq<string>): Option<string> {
    if paths == [] then t
    else MergePathTemplates(MergeAll(t, paths[..|paths| - 1]), Some(paths[|paths| - 1]))
  }

  function FirstSeen(paths: seq<string>): seq<string> {
    if paths == [] then [] else AddOnce(FirstSeen(paths[..|paths| - 1]), paths[|paths| - 1])
  }

  lemma {:induction false} CleanPartsStay(parts: seq<string>)
    requires AllClean(parts)
    ensures NonEmpty(TrimAll(parts)) == parts
  {
    if parts != [] {
      CleanPartsStay(parts[1..]);
      assert TrimAll(parts)[1..] == TrimAll(parts[1..]);
    }
  }

  lemma {:induction false} PartsOfJoin(parts: seq<string>)
    requires parts != [] && AllClean(parts)
    ensures Parts(Some(Join(parts, ','))) == parts
  {
    SplitOfJoin(parts, ',');
    CleanPartsStay(parts);
  }

  lemma {:induction false} SplitHasNoSeparator(s: string, sep: char)
    ensures forall i :: 0 <= i < |Split(s, sep)| ==> sep !in Split(s, sep)[i]
  {
    if s != "" {
      SplitHasNoSeparator(s[1..], sep);
    }
  }

  lemma {:induction false} TrimStartKeeps(s: string, c: char)
    requires c !in s
    ensures c !in TrimStart(s)
  {
    if s != "" && IsSpace(s[0]) {
      TrimStartKeeps(s[1..], c);
    }
  }

  lemma TrimKeeps(s: string, c: char)
    requires c !in s
    ensures c !in Trim(s)
  {
    TrimStartKeeps(s, c);
  }

  lemma {:induction false} NonEmptyParts(parts: seq<string>)
    ensures forall i :: 0 <= i < |NonEmpty(parts)| ==> NonEmpty(parts)[i] != "" && NonEmpty(parts)[i] in parts
  {
    if parts != [] {
      NonEmptyParts(parts[1..]);
    }
  }

  // Whatever the column holds, the templates read from it are clean.
  lemma {:induction false} PartsAreClean(t: Option<string>)
    ensures AllClean(Parts(t))
  {
    if t.Some? {
      var split := Split(t.value, ',');
      SplitHasNoSeparator(t.value, ',');
      NonEmptyParts(TrimAll(split));
      var parts := Parts(t);
      forall i | 0 <= i < |parts| ensures Clean(parts[i]) {
        var j :| 0 <= j < |split| && parts[i] == TrimAll(split)[j];
        TrimKeeps(split[j], ',');
        TrimIsIdempotent(split[j]);
      }
    }
  }

  // Merging a clean path lists it once, after what was there.
  lemma {:induction false} PartsOfMerge(t: Option<string>, path: string)
    requires Clean(path)
    ensures Parts(MergePathTemplates(t, Some(path))) == AddOnce(Parts(t), path)
    ensures path in Parts(t) ==> MergePathTemplates(t, Some(path)) == t
  {
    PartsAreClean(t);
    if t == None || t == Some("") {
      NothingInAnEmptyColumn();
      PartsOfJoin([path]);
      hide Parts;
      assert Join([path], ',') == path;
      assert Parts(t) + [path] == [path];
    } else {
      assert MergePathTemplates(t, Some(path))
             == if path in Parts(t) then t else Some(Join(Parts(t) + [path], ','));
      hide MergePathTemplates, Parts;
      if path !in Parts(t) {
        PartsOfJoin(Parts(t) + [path]);
      }
    }
  }

  lemma NothingInAnEmptyColumn()
    ensures Parts(None) == [] && Parts(Some("")) == []
  {
    assert Split("", ',') == [""];
    assert TrimAll([""]) == [""];
  }

  lemma {:induction false} PartsOfMergeAll(t: Option<string>, paths: seq<string>)
    requires AllClean(paths)
    ensures forall p :: p in Parts(t) || p in paths ==> p in Parts(MergeAll(t, paths))
  {
    hide MergePathTemplates, Parts;
    if paths != [] {
      var last := |paths| - 1;
      PartsOfMergeAll(t, paths[..last]);
      PartsOfMerge(MergeAll(t, paths[..last]), paths[last]);
      assert paths == paths[..last] + [paths[last]];
    }
  }

  lemma {:induction false} MergingListedPaths(t: Option<string>, paths: seq<string>)
    requires AllClean(paths) && forall p :: p in paths ==> p in Parts(t)
    ensures MergeAll(t, paths) == t
  {
    if paths != [] {
      var last := |paths| - 1;
      MergingListedPaths(t, paths[..last]);
      PartsOfMerge(t, paths[last]);
    }
  }

  // A second scan with the same clean paths leaves the column as the first one wrote it.
  lemma MergingAgainChangesNothing(t: Option<string>, paths: seq<string>)
    requires AllClean(paths)
    ensures MergeAll(MergeAll(t, paths), paths) == MergeAll(t, paths)
  {
    PartsOfMergeAll(t, paths);
    MergingListedPaths(MergeAll(t, paths), paths);
  }

  lemma {:induction false} FirstSeenIsClean(paths: seq<string>)
    requires AllClean(paths)
    ensures AllClean(FirstSeen(paths))
    ensures paths != [] ==> FirstSeen(paths) != []
  {
    if paths != [] {
      FirstSeenIsClean(paths[..|paths| - 1]);
    }
  }

  // From an empty column, the value is the distinct paths in first-seen order.
  lemma {:induction false} FreshColumnIsFirstSeen(paths: seq<string>)
    requires paths != [] && AllClean(paths)
    ensures MergeAll(None, paths) == Some(Join(FirstSeen(paths), ','))
  {
    var last := |paths| - 1;
    var earlier := paths[..last];
    if earlier == [] {
      assert FirstSeen(paths) == [paths[0]];
      assert MergeAll(None, earlier) == None;
    } else {
      FreshColumnIsFirstSeen(earlier);
      FirstSeenIsClean(earlier);
      PartsOfJoin(FirstSeen(earlier));
      var column := Join(FirstSeen(earlier), ',');
      assert Parts(Some(column)) == FirstSeen(earlier);
      NothingInAnEmptyColumn();
      assert column != "";
    }
  }
}
