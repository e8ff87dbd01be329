/**
 * The `no-import-dist` rule: an import whose source is a relative path into a
 * `dist` directory, or the bare path `dist`, is reported.
 */
module NoImportDist {
  import opened Layout

  /** A `noImportDist` report; it carries the imported path and offers no fix. */
  datatype Report = Report(path: string)

  /** `/dist` occurs at offset `i`, followed by `/` or by the end of the path. */
  predicate DistAt(path: string, i: nat) {
    && i + 5 <= |path|
    && path[i..i + 5] == "/dist"
    && (i + 5 == |path| || path[i + 5] == '/')
  }

  /** The pattern `/\/dist(\/|$)/` matches somewhere in the path. */
  ghost predicate MatchesDist(path: string) {
    exists i: nat :: DistAt(path, i)
  }

  /** Scans the path for `/dist` followed by `/` or the end, starting at offset `from`. */
  function FindDist(path: string, from: nat): (found: bool)
    decreases |path| - from
  {
    if from + 5 > |path| then false
    else DistAt(path, from) || FindDist(path, from + 1)
  }

  /** The scan finds exactly the matches at or after `from`. */
  lemma {:induction false} FindDistMatches(path: string, from: nat)
    ensures FindDist(path, from) <==> exists i: nat :: from <= i && DistAt(path, i)
    decreases |path| - from
  {
    if from + 5 <= |path| {
      FindDistMatches(path, from + 1);
      if exists i: nat :: from <= i && DistAt(path, i) {
        var i: nat :| from <= i && DistAt(path, i);
        assert i == from || (from + 1 <= i && DistAt(path, i));
      }
    }
  }

  /** `isDist`: a relative path with a `dist` segment, or exactly `dist`. */
  function IsDist(path: string): bool {
    (|path| > 0 && path[0] == '.' && FindDist(path, 0)) || path == "dist"
  }

  /**
   * A path is a dist path exactly when it is `dist`, or it starts with `.` and
   * has `/dist` followed by `/` or by its end.
   */
  lemma IsDistMeaning(path: string)
    ensures IsDist(path) <==> path == "dist" || (|path| > 0 && path[0] == '.' && MatchesDist(path))
  {
    FindDistMatches(path, 0);
  }

  /** A path that does not start with `.` is a dist path only when it is `dist` itself. */
  lemma PackagePathsAllowed(path: string)
    requires path == [] || path[0] != '.'
    ensures IsDist(path) <==> path == "dist"
  {
  }

  /** The `ImportDeclaration` listener: one report, carrying the source path, exactly for a dist path. */
  function OnImport(source: string): (r: Option<Report>)
    ensures r.Some? <==> source == "dist" || (|source| > 0 && source[0] == '.' && MatchesDist(source))
    ensures r.Some? ==> r.value.path == source
  {
    IsDistMeaning(source);
    if IsDist(source) then Some(Report(source)) else None
  }
}
