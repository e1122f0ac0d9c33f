/** The Visual Studio plugin's record of the files generated from each
  * Slice file of each project, and the reaping of the generated files of
  * Slice files that left their project. */
module VsFileTracker {
  import opened Basics

  /** Generated files by project name and Slice file. */
  type Tracking = map<string, map<string, seq<string>>>

  /** `trackFile`: the project and the Slice file get an entry when they
    * have none, and the generated file is appended unless it is already
    * recorded for that Slice file. */
  function Tracked(files: Tracking, project: string, slice: string, generated: string): Tracking
  {
    var projectFiles := if project in files then files[project] else map[];
    var list := if slice in projectFiles then projectFiles[slice] else [];
    var newList := if generated in list then list else list + [generated];
    files[project := projectFiles[slice := newList]]
  }

  /** No generated file is recorded twice for one Slice file. */
  predicate NoRepeats(files: Tracking)
  {
    forall p, s :: p in files && s in files[p] ==> Distinct(files[p][s])
  }

  predicate Distinct(list: seq<string>)
  {
    forall i, j :: 0 <= i < j < |list| ==> list[i] != list[j]
  }

  /** Tracking records the generated file under its project and Slice file,
    * keeps what was recorded there before (in order, as a prefix), leaves
    * every other entry alone, records a file once however often it is
    * tracked, and keeps lists free of repeats. */
  lemma TrackedMeaning(files: Tracking, project: string, slice: string, generated: string)
    ensures var t := Tracked(files, project, slice, generated);
            && project in t && slice in t[project] && generated in t[project][slice]
            && t.Keys == files.Keys + {project}
            && (forall p :: p in files && p != project ==> t[p] == files[p])
            && (project in files ==>
                  t[project].Keys == files[project].Keys + {slice}
                  && forall s :: s in files[project] && s != slice ==> t[project][s] == files[project][s])
            && (project in files && slice in files[project] ==>
                  && files[project][slice] <= t[project][slice]
                  && |t[project][slice]| <= |files[project][slice]| + 1)
            && Tracked(t, project, slice, generated) == t
            && (NoRepeats(files) ==> NoRepeats(t))
  {
    var t := Tracked(files, project, slice, generated);
    assert t[project][slice := t[project][slice]] == t[project];
    assert t[project := t[project]] == t;
    if NoRepeats(files) {
      forall p, s | p in t && s in t[p]
        ensures Distinct(t[p][s])
      {
        if p == project && s == slice {
          var projectFiles := if project in files then files[project] else map[];
          var list := if slice in projectFiles then projectFiles[slice] else [];
          assert Distinct(list);
        }
      }
    }
  }

  /** The tracking table and the re-entrance flag of `reap`. */
  class FileTracker {
    var files: Tracking
    var reaping: bool

    constructor()
      ensures files == map[] && !reaping
    {
      files := map[];
      reaping := false;
    }

    /** `clear`: all tracking is dropped. */
    method Clear()
      modifies this
      ensures files == map[] && reaping == old(reaping)
    {
      files := map[];
    }

    /** `trackFile`. */
    method TrackFile(project: string, slice: string, generated: string)
      modifies this
      ensures files == Tracked(old(files), project, slice, generated) && reaping == old(reaping)
    {
      ghost var before := files;
      if project !in files {
        files := files[project := map[]];
      }
      var projectFiles := files[project];
      ghost var start := projectFiles;
      assert start == if project in before then before[project] else map[];
      if slice !in projectFiles {
        var list := [];
        list := list + [generated];
        projectFiles := projectFiles[slice := list];
      } else if generated !in projectFiles[slice] {
        projectFiles := projectFiles[slice := projectFiles[slice] + [generated]];
      } else {
        assert projectFiles[slice := projectFiles[slice]] == projectFiles;
      }
      files := files[project := projectFiles];
      assert files == before[project := projectFiles];
    }

    /** `reap` for the project named `project` (none for a null project),
      * with `inProject` telling which files the project still holds:
      * unless a reap is already running, the Slice files no longer in the
      * project lose their entries (an empty name is kept), and the
      * generated files of those Slice files that are still in the project
      * are returned, to be deleted from it and from the disk. */
    method Reap(project: Option<string>, inProject: string -> bool) returns (deleted: set<string>)
      modifies this
      ensures reaping == old(reaping)
      ensures files == (if old(reaping) then old(files) else Reaped(old(files), project, inProject))
      ensures deleted == (if old(reaping) then {} else Deleted(old(files), project, inProject))
    {
      deleted := {};
      if reaping {
        return;
      }
      reaping := true;
      if project.None? || project.value !in files {
        reaping := false;
        return;
      }
      var projectFiles := files[project.value];
      var removedSlice;
      removedSlice, deleted := CollectGone(projectFiles, inProject);
      var kept := WithoutSlices(projectFiles, removedSlice);
      files := files[project.value := kept];
      reaping := false;
    }
  }

  /** The first loop of `reap`: the Slice files no longer in the project,
    * and the generated files of those that the project still holds. */
  method CollectGone(projectFiles: map<string, seq<string>>, inProject: string -> bool)
    returns (removedSlice: set<string>, deleted: set<string>)
    ensures removedSlice == Gone(projectFiles, inProject)
    ensures deleted == GoneFiles(projectFiles, inProject)
  {
    removedSlice := {};
    deleted := {};
    var keys := projectFiles.Keys;
    while keys != {}
      invariant keys <= projectFiles.Keys
      invariant forall s :: s in removedSlice <==> s in projectFiles && s !in keys && !inProject(s)
      invariant forall f :: f in deleted <==>
                  exists s :: s in projectFiles && s !in keys && !inProject(s) && f in projectFiles[s] && inProject(f)
      decreases |keys|
    {
      var slice :| slice in keys;
      if !inProject(slice) {
        removedSlice := removedSlice + {slice};
        deleted := deleted + set f | f in projectFiles[slice] && inProject(f);
      }
      keys := keys - {slice};
    }
  }

  /** The second loop of `reap`: the removed Slice files other than an empty
    * name lose their entries. */
  method WithoutSlices(projectFiles: map<string, seq<string>>, removedSlice: set<string>)
    returns (kept: map<string, seq<string>>)
    ensures kept == projectFiles - (removedSlice - {""})
  {
    var remaining := removedSlice;
    kept := projectFiles;
    while remaining != {}
      invariant remaining <= removedSlice
      invariant kept == projectFiles - ((removedSlice - remaining) - {""})
      decreases |remaining|
    {
      var slice :| slice in remaining;
      if slice != "" {
        kept := kept - {slice};
      }
      remaining := remaining - {slice};
    }
    assert removedSlice - remaining == removedSlice;
  }

  /** The generated files, still in the project, of its Slice files that
    * are not. */
  function GoneFiles(projectFiles: map<string, seq<string>>, inProject: string -> bool): set<string>
  {
    set s, f | s in projectFiles.Keys && !inProject(s) && f in projectFiles[s] && inProject(f) :: f
  }

  /** The Slice files of a tracked project that are no longer in it. */
  function Gone(projectFiles: map<string, seq<string>>, inProject: string -> bool): set<string>
  {
    set s | s in projectFiles.Keys && !inProject(s)
  }

  /** The table after a reap: the Slice files no longer in the project,
    * except an empty name, lose their entries; nothing else changes. */
  function Reaped(files: Tracking, project: Option<string>, inProject: string -> bool): Tracking
  {
    if project.None? || project.value !in files then files
    else files[project.value := files[project.value] - (Gone(files[project.value], inProject) - {""})]
  }

  /** The generated files a reap takes out: those of the Slice files no
    * longer in the project that the project still holds. */
  function Deleted(files: Tracking, project: Option<string>, inProject: string -> bool): set<string>
  {
    if project.None? || project.value !in files then {}
    else
      GoneFiles(files[project.value], inProject)
  }

  /** After a reap every Slice file left in the project's entry is still in
    * the project (or has an empty name) and keeps its generated files;
    * other projects are untouched; and every file taken out was generated
    * from a Slice file that left. */
  lemma ReapedMeaning(files: Tracking, project: Option<string>, inProject: string -> bool)
    ensures var r := Reaped(files, project, inProject);
            && r.Keys == files.Keys
            && (forall p :: p in files && (project.None? || p != project.value) ==> r[p] == files[p])
            && (project.Some? && project.value in files ==>
                  && (forall s :: s in r[project.value] ==> inProject(s) || s == "")
                  && (forall s :: s in files[project.value] && (inProject(s) || s == "") ==>
                        s in r[project.value] && r[project.value][s] == files[project.value][s]))
    ensures forall f :: f in Deleted(files, project, inProject) ==>
              inProject(f) && project.Some? && project.value in files &&
              exists s :: s in files[project.value] && !inProject(s) && f in files[project.value][s]
  {
  }
}
