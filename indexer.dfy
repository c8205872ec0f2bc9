/** The library indexer of `library/indexer.rs`: for each audio file, extract its track, then
    insert its artist, genre and album (when present) and the track itself, stopping at the
    first failure; over a list of files, count successes and failures and collect one error
    line per failing file. Tag extraction and the SQL behind each database call are given as
    functions (`extract`, `answer`). */
module Indexer {
  import opened Wrappers
  import opened Sequences

  /** `db::models::Track`. */
  datatype Track = Track(
    id: int,
    filePath: string,
    title: string,
    artist: Option<string>,
    album: Option<string>,
    albumArtist: Option<string>,
    year: Option<nat>,
    trackNumber: Option<int>,
    discNumber: Option<int>,
    durationMs: Option<int>,
    genre: Option<string>,
    fileSize: Option<int>,
    fileFormat: Option<string>,
    bitrate: Option<int>,
    sampleRate: Option<int>,
    dateAdded: int,
    dateModified: int,
    playCount: int,
    lastPlayed: Option<int>,
    fileHash: Option<string>,
    normalizationGainDb: Option<real>)

  /** The `DbOperations` calls the indexer makes. */
  datatype DbCall =
    | InsertOrGetArtist(name: string)
    | InsertOrGetGenre(name: string)
    | InsertOrGetAlbum(title: string, artist: Option<string>, year: Option<nat>)
    | InsertTrack(track: Track)

  /** What the SQL behind a call returns (a row id or an error message), given the calls
      made before it. */
  type Answer = (seq<DbCall>, DbCall) -> Result<int, string>

  /** The tag extractor: a track, or why the file could not be read. */
  type Extractor = string -> Result<Track, string>

  /** The connection, seen through the calls made on it. */
  class DatabaseConnection {
    /** Every call made so far, in order. */
    var log: seq<DbCall>
    const answer: Answer

    constructor (answer: Answer)
      ensures log == [] && this.answer == answer
    {
      log := [];
      this.answer := answer;
    }

    method Perform(c: DbCall) returns (r: Result<int, string>)
      modifies this
      ensures log == old(log) + [c] && r == answer(old(log), c)
    {
      r := answer(log, c);
      log := log + [c];
    }
  }

  /** The order `index_single_file` makes its calls in. */
  function Rank(c: DbCall): nat
  {
    match c
    case InsertOrGetArtist(_) => 0
    case InsertOrGetGenre(_) => 1
    case InsertOrGetAlbum(_, _, _) => 2
    case InsertTrack(_) => 3
  }

  function Prepend(c: Option<DbCall>, rest: seq<DbCall>): seq<DbCall>
  {
    if c.Some? then [c.value] + rest else rest
  }

  function ArtistCall(t: Track): Option<DbCall>
  {
    if t.artist.Some? then Some(InsertOrGetArtist(t.artist.value)) else None
  }

  function GenreCall(t: Track): Option<DbCall>
  {
    if t.genre.Some? then Some(InsertOrGetGenre(t.genre.value)) else None
  }

  /** The album insert carries the track's artist and year. */
  function AlbumCall(t: Track): Option<DbCall>
  {
    if t.album.Some? then Some(InsertOrGetAlbum(t.album.value, t.artist, t.year)) else None
  }

  /** The calls left once the artist insert is done, and once the genre insert is done. */
  function AfterArtist(t: Track): seq<DbCall>
  {
    Prepend(GenreCall(t), AfterGenre(t))
  }

  function AfterGenre(t: Track): seq<DbCall>
  {
    Prepend(AlbumCall(t), [InsertTrack(t)])
  }

  /** The calls `index_single_file` would make for `t` if every one succeeded. */
  function Plan(t: Track): seq<DbCall>
  {
    Prepend(ArtistCall(t), AfterArtist(t))
  }

  /** The track insert comes last, and nowhere else. */
  lemma PlanEndsWithTrack(t: Track)
    ensures var r := Plan(t); r != [] && r[|r| - 1] == InsertTrack(t)
    ensures forall u :: InsertTrack(u) in Plan(t) <==> u == t
  {
  }

  /** Artist, then genre, then album, then track. */
  lemma PlanOrdered(t: Track)
    ensures var r := Plan(t); forall i, j :: 0 <= i < j < |r| ==> Rank(r[i]) < Rank(r[j])
  {
    var g := AfterGenre(t);
    var h := AfterArtist(t);
    assert forall i :: 0 <= i < |g| ==> Rank(g[i]) >= 2;
    assert forall i :: 0 <= i < |h| ==> Rank(h[i]) >= 1;
  }

  /** Each optional insert is planned exactly when its field is present; the album insert
      receives the track's artist and year. */
  lemma PlanInsertsPresentFields(t: Track)
    ensures forall n :: InsertOrGetArtist(n) in Plan(t) <==> t.artist == Some(n)
    ensures forall n :: InsertOrGetGenre(n) in Plan(t) <==> t.genre == Some(n)
    ensures forall a, ar, y :: InsertOrGetAlbum(a, ar, y) in Plan(t) <==> t.album == Some(a) && ar == t.artist && y == t.year
  {
  }

  /** The calls actually made, and the call's outcome. */
  datatype Run = Run(made: seq<DbCall>, result: Result<int, string>)

  /** `run` is `plan` made in order after `log` up to its first failure: the calls made are a
      nonempty prefix of the plan, all but the last answered `Ok`, the result is the last
      one's answer, and the plan stops early only on an error. */
  ghost predicate StopsAtFirstFailure(answer: Answer, log: seq<DbCall>, plan: seq<DbCall>, run: Run)
  {
    && 1 <= |run.made| <= |plan| && run.made == plan[..|run.made|]
    && (forall k :: 0 <= k < |run.made| - 1 ==> answer(log + run.made[..k], run.made[k]).Ok?)
    && run.result == answer(log + run.made[..|run.made| - 1], run.made[|run.made| - 1])
    && (|run.made| < |plan| ==> run.result.Err?)
  }

  lemma StopsAtFirstFailureCons(answer: Answer, log: seq<DbCall>, c: DbCall, plan: seq<DbCall>, rest: Run)
    requires answer(log, c).Ok? && StopsAtFirstFailure(answer, log + [c], plan, rest)
    ensures StopsAtFirstFailure(answer, log, [c] + plan, Run([c] + rest.made, rest.result))
  {
    var made := [c] + rest.made;
    assert made[..|made| - 1] == [c] + rest.made[..|rest.made| - 1];
    forall k | 0 <= k < |made| - 1
      ensures answer(log + made[..k], made[k]).Ok?
    {
      if k == 0 {
        assert log + made[..0] == log;
      } else {
        assert made[..k] == [c] + rest.made[..k - 1];
        assert log + made[..k] == (log + [c]) + rest.made[..k - 1];
      }
    }
    assert log + made[..|made| - 1] == (log + [c]) + rest.made[..|rest.made| - 1];
  }

  /** Making the calls of `plan` in order after `log`, stopping at the first that fails. */
  function Execute(answer: Answer, log: seq<DbCall>, plan: seq<DbCall>): Run
    requires plan != []
    decreases |plan|
  {
    var c := plan[0];
    var r := answer(log, c);
    if |plan| == 1 || r.Err? then
      Run([c], r)
    else
      var rest := Execute(answer, log + [c], plan[1..]);
      Run([c] + rest.made, rest.result)
  }

  /** `Execute` makes the calls of the plan up to and including the first that fails. */
  lemma {:induction false} ExecuteStopsAtFirstFailure(answer: Answer, log: seq<DbCall>, plan: seq<DbCall>)
    requires plan != []
    ensures StopsAtFirstFailure(answer, log, plan, Execute(answer, log, plan))
    ensures Execute(answer, log, plan).result.Ok? ==> Execute(answer, log, plan).made == plan
    decreases |plan|
  {
    var c := plan[0];
    assert plan == [c] + plan[1..];
    if |plan| == 1 || answer(log, c).Err? {
      assert Execute(answer, log, plan) == Run([c], answer(log, c));
      assert log + [c][..0] == log;
    } else {
      var rest := Execute(answer, log + [c], plan[1..]);
      assert Execute(answer, log, plan) == Run([c] + rest.made, rest.result);
      ExecuteStopsAtFirstFailure(answer, log + [c], plan[1..]);
      StopsAtFirstFailureCons(answer, log, c, plan[1..], rest);
    }
  }

  /** One step of `Execute` on a plan that starts with an optional call. */
  lemma ExecutePrepend(answer: Answer, log: seq<DbCall>, c: Option<DbCall>, rest: seq<DbCall>)
    requires rest != []
    ensures c.None? ==> Execute(answer, log, Prepend(c, rest)) == Execute(answer, log, rest)
    ensures c.Some? && answer(log, c.value).Err? ==>
      Execute(answer, log, Prepend(c, rest)) == Run([c.value], answer(log, c.value))
    ensures c.Some? && answer(log, c.value).Ok? ==>
      var next := Execute(answer, log + [c.value], rest);
      Execute(answer, log, Prepend(c, rest)) == Run([c.value] + next.made, next.result)
  {
    if c.Some? {
      assert ([c.value] + rest)[1..] == rest;
    }
  }

  /** What `index_single_file` does for `path` after `log`. */
  function IndexOne(answer: Answer, extract: Extractor, log: seq<DbCall>, path: string): Run
  {
    match extract(path)
    case Err(e) => Run([], Err(e))
    case Ok(t) => Execute(answer, log, Plan(t))
  }

  /** A file that cannot be read makes no call and fails with the extractor's error; one that
      can runs its plan up to the first failing call. */
  lemma IndexOneOutcome(answer: Answer, extract: Extractor, log: seq<DbCall>, path: string)
    ensures extract(path).Err? ==> IndexOne(answer, extract, log, path) == Run([], Err(extract(path).error))
    ensures extract(path).Ok? ==> StopsAtFirstFailure(answer, log, Plan(extract(path).value), IndexOne(answer, extract, log, path))
  {
    if extract(path).Ok? {
      ExecuteStopsAtFirstFailure(answer, log, Plan(extract(path).value));
    }
  }

  /** `run`, after the calls `made`. */
  function After(made: seq<DbCall>, run: Run): Run
  {
    Run(made + run.made, run.result)
  }

  /** One optional insert of `index_single_file` at a time: running `Prepend(c, rest)` is
      skipping `c`, failing at `c`, or making `c` and running `rest`. */
  lemma OptionalStep(answer: Answer, log0: seq<DbCall>, made: seq<DbCall>, c: Option<DbCall>, rest: seq<DbCall>, whole: Run)
    requires rest != []
    requires whole == After(made, Execute(answer, log0 + made, Prepend(c, rest)))
    ensures c.None? ==> whole == After(made, Execute(answer, log0 + made, rest))
    ensures c.Some? && answer(log0 + made, c.value).Err? ==>
      whole == Run(made + [c.value], answer(log0 + made, c.value))
    ensures c.Some? && answer(log0 + made, c.value).Ok? ==>
      whole == After(made + [c.value], Execute(answer, log0 + (made + [c.value]), rest))
  {
    ExecutePrepend(answer, log0 + made, c, rest);
    if c.Some? {
      assert log0 + made + [c.value] == log0 + (made + [c.value]);
    }
  }

  /** `if let Some(..) = .. { DbOperations::insert_..(..)?; }`: make the call `c` when there
      is one, and report its error. Ghost parameters: the calls `made` since `log0`, the
      `rest` of the plan after `c`, and the `whole` run they belong to. */
  method InsertOptional(db: DatabaseConnection, c: Option<DbCall>,
                        ghost log0: seq<DbCall>, ghost made: seq<DbCall>, ghost rest: seq<DbCall>, ghost whole: Run)
    returns (failure: Option<string>, ghost made': seq<DbCall>)
    requires rest != [] && db.log == log0 + made
    requires whole == After(made, Execute(db.answer, db.log, Prepend(c, rest)))
    modifies db
    ensures db.log == log0 + made'
    ensures failure.Some? ==> whole == Run(made', Err(failure.value))
    ensures failure.None? ==> whole == After(made', Execute(db.answer, db.log, rest))
  {
    OptionalStep(db.answer, log0, made, c, rest, whole);
    made' := made;
    failure := None;
    if c.Some? {
      var r := db.Perform(c.value);
      made' := made + [c.value];
      if r.Err? {
        failure := Some(r.error);
      }
    }
  }

  /** `index_single_file`: extract, then the optional artist, genre and album inserts and the
      track insert, each returning early with its error. */
  method IndexSingleFile(path: string, db: DatabaseConnection, extract: Extractor) returns (r: Result<int, string>)
    modifies db
    ensures var run := IndexOne(db.answer, extract, old(db.log), path);
      db.log == old(db.log) + run.made && r == run.result
  {
    var extracted := extract(path);
    if extracted.Err? {
      return Err(extracted.error);
    }
    var track := extracted.value;
    ghost var log0 := db.log;
    ghost var whole := IndexOne(db.answer, extract, log0, path);
    ghost var made: seq<DbCall> := [];
    assert db.log == log0 + made;
    var failure;
    failure, made := InsertOptional(db, ArtistCall(track), log0, made, AfterArtist(track), whole);
    if failure.Some? {
      return Err(failure.value);
    }
    failure, made := InsertOptional(db, GenreCall(track), log0, made, AfterGenre(track), whole);
    if failure.Some? {
      return Err(failure.value);
    }
    failure, made := InsertOptional(db, AlbumCall(track), log0, made, [InsertTrack(track)], whole);
    if failure.Some? {
      return Err(failure.value);
    }
    LastStep(db.answer, db.log, track);
    assert whole == Run(made + [InsertTrack(track)], db.answer(db.log, InsertTrack(track)));
    AppendAssoc(log0, made, [InsertTrack(track)]);
    r := db.Perform(InsertTrack(track));
  }


  lemma LastStep(answer: Answer, log: seq<DbCall>, t: Track)
    ensures Execute(answer, log, [InsertTrack(t)]) == Run([InsertTrack(t)], answer(log, InsertTrack(t)))
  {
  }

  /** `IndexingResult`. */
  datatype IndexingResult = IndexingResult(totalFiles: nat, successful: nat, failed: nat, errors: seq<string>)

  /** The log after indexing a batch of files, and each file's outcome. */
  datatype Batch = Batch(log: seq<DbCall>, outcomes: seq<Result<int, string>>)

  /** Indexing `paths` one after the other after `log`: every path is attempted, whatever
      happened to the ones before it. */
  function IndexAll(answer: Answer, extract: Extractor, log: seq<DbCall>, paths: seq<string>): (b: Batch)
    ensures |b.outcomes| == |paths|
    ensures log <= b.log
  {
    if paths == [] then Batch(log, [])
    else
      var before := IndexAll(answer, extract, log, paths[..|paths| - 1]);
      var run := IndexOne(answer, extract, before.log, paths[|paths| - 1]);
      Batch(before.log + run.made, before.outcomes + [run.result])
  }

  /** Indexing two lists one after the other is indexing their concatenation. */
  lemma {:induction false} IndexAllAppend(answer: Answer, extract: Extractor, log: seq<DbCall>, p1: seq<string>, p2: seq<string>)
    ensures var b1 := IndexAll(answer, extract, log, p1);
      var b2 := IndexAll(answer, extract, b1.log, p2);
      IndexAll(answer, extract, log, p1 + p2) == Batch(b2.log, b1.outcomes + b2.outcomes)
    decreases |p2|
  {
    var b1 := IndexAll(answer, extract, log, p1);
    if p2 == [] {
      assert p1 + p2 == p1;
    } else {
      var init := p2[..|p2| - 1];
      assert (p1 + p2)[..|p1 + p2| - 1] == p1 + init;
      assert (p1 + p2)[|p1 + p2| - 1] == p2[|p2| - 1];
      IndexAllAppend(answer, extract, log, p1, init);
      var b2 := IndexAll(answer, extract, b1.log, init);
      var run := IndexOne(answer, extract, b2.log, p2[|p2| - 1]);
      assert b1.outcomes + (b2.outcomes + [run.result]) == (b1.outcomes + b2.outcomes) + [run.result];
    }
  }

  /** The `k`-th file's outcome is what `index_single_file` does to it after the files before
      it, whether or not they failed. */
  lemma IndexAllOutcome(answer: Answer, extract: Extractor, log: seq<DbCall>, paths: seq<string>, k: nat)
    requires k < |paths|
    ensures var before := IndexAll(answer, extract, log, paths[..k]);
      IndexAll(answer, extract, log, paths).outcomes[k] == IndexOne(answer, extract, before.log, paths[k]).result
  {
    var before := IndexAll(answer, extract, log, paths[..k]);
    var rest := paths[k..];
    IndexAllAppend(answer, extract, log, paths[..k], rest);
    assert paths[..k] + rest == paths;
    var after := IndexAll(answer, extract, before.log, rest);
    assert IndexAll(answer, extract, log, paths).outcomes == before.outcomes + after.outcomes;
    IndexAllAppend(answer, extract, before.log, [paths[k]], paths[k + 1..]);
    assert [paths[k]] + paths[k + 1..] == rest;
    IndexAllSingle(answer, extract, before.log, paths[k]);
    assert after.outcomes[0] == IndexOne(answer, extract, before.log, paths[k]).result;
  }

  lemma IndexAllSingle(answer: Answer, extract: Extractor, log: seq<DbCall>, path: string)
    ensures IndexAll(answer, extract, log, [path]).outcomes == [IndexOne(answer, extract, log, path).result]
  {
    assert [path][..0] == [];
  }

  /** The error line for a file that failed. */
  function ErrorLine(path: string, e: string): string
  {
    path + ": " + e
  }

  /** The counts and error lines for the outcomes of `paths`: every file is counted once,
      as a success or as a failure, and each failure has one error line. */
  function Summarize(paths: seq<string>, outcomes: seq<Result<int, string>>): (r: IndexingResult)
    requires |outcomes| == |paths|
    ensures r.totalFiles == |paths|
    ensures r.successful + r.failed == r.totalFiles
    ensures |r.errors| == r.failed
  {
    if paths == [] then IndexingResult(0, 0, 0, [])
    else
      var s := Summarize(paths[..|paths| - 1], outcomes[..|outcomes| - 1]);
      var path := paths[|paths| - 1];
      match outcomes[|outcomes| - 1]
      case Ok(_) => IndexingResult(|paths|, s.successful + 1, s.failed, s.errors)
      case Err(e) => IndexingResult(|paths|, s.successful, s.failed + 1, s.errors + [ErrorLine(path, e)])
  }

  /** Summaries add up over a split of the files, and the error lines keep the files' order. */
  lemma {:induction false} SummarizeAppend(p1: seq<string>, o1: seq<Result<int, string>>, p2: seq<string>, o2: seq<Result<int, string>>)
    requires |o1| == |p1| && |o2| == |p2|
    ensures var s := Summarize(p1 + p2, o1 + o2);
      var a := Summarize(p1, o1);
      var b := Summarize(p2, o2);
      s.successful == a.successful + b.successful && s.failed == a.failed + b.failed &&
      s.errors == a.errors + b.errors
    decreases |p2|
  {
    if p2 == [] {
      assert p1 + p2 == p1 && o1 + o2 == o1;
    } else {
      var pi, oi := p2[..|p2| - 1], o2[..|o2| - 1];
      assert (p1 + p2)[..|p1 + p2| - 1] == p1 + pi;
      assert (o1 + o2)[..|o1 + o2| - 1] == o1 + oi;
      SummarizeAppend(p1, o1, pi, oi);
    }
  }

  /** One file: a success counts once; a failure counts once and gives its error line. */
  lemma SummarizeOne(path: string, o: Result<int, string>)
    ensures o.Ok? ==> Summarize([path], [o]) == IndexingResult(1, 1, 0, [])
    ensures o.Err? ==> Summarize([path], [o]) == IndexingResult(1, 0, 1, [path + ": " + o.error])
  {
    assert [path][..0] == [] && [o][..0] == [];
  }

  /** `index_files`; it never fails. */
  method IndexFiles(paths: seq<string>, db: DatabaseConnection, extract: Extractor) returns (r: Result<IndexingResult, string>)
    modifies db
    ensures var b := IndexAll(db.answer, extract, old(db.log), paths);
      db.log == b.log && r == Ok(Summarize(paths, b.outcomes))
  {
    var totalFiles := |paths|;
    var successful := 0;
    var failed := 0;
    var errors := [];
    ghost var log0 := db.log;
    ghost var outcomes := [];
    var i := 0;
    while i < |paths|
      invariant i <= |paths|
      invariant var b := IndexAll(db.answer, extract, log0, paths[..i]);
        db.log == b.log && outcomes == b.outcomes
      invariant Summarize(paths[..i], outcomes) == IndexingResult(i, successful, failed, errors)
    {
      var path := paths[i];
      assert paths[..i + 1][..i] == paths[..i];
      var res := IndexSingleFile(path, db, extract);
      outcomes := outcomes + [res];
      match res {
        case Ok(_) =>
          successful := successful + 1;
        case Err(e) =>
          failed := failed + 1;
          errors := errors + [ErrorLine(path, e)];
      }
      assert outcomes[..i] == outcomes[..|outcomes| - 1];
      i := i + 1;
    }
    assert paths[..i] == paths;
    r := Ok(IndexingResult(totalFiles, successful, failed, errors));
  }
}
