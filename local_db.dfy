/**
 * The app's local database: the progress store keyed by page, the history
 * store keyed by timestamp and the settings store keyed by name, each held
 * as a map that the operations update in place. The clock (Date.now()) is a
 * parameter.
 */
module LocalDb {
  import opened Wrappers

  datatype PageStatus = Locked | Started | Revise | Mastered

  /** A progress record: page, status, last practice time, number of recitations. */
  datatype PageProgress = PageProgress(page: int, status: PageStatus, lastPracticed: int, recitationCount: int)

  /** A saved recitation; W is the per-word analysis the engine produced, which the store keeps as it is. */
  datatype RecitationResult<W> = RecitationResult(pageNumber: int, level: int, words: seq<W>,
                                               overallScore: real, passed: bool, timestamp: int)

  /** The progress store after saving a result: a passing result on a page not yet mastered records a new recitation. */
  function ProgressAfterSave<W>(progress: map<int, PageProgress>, result: RecitationResult<W>, now: int): (p: map<int, PageProgress>)
    ensures !result.passed ==> p == progress
    ensures result.pageNumber in progress && progress[result.pageNumber].status == Mastered ==> p == progress
    ensures result.passed && (result.pageNumber !in progress || progress[result.pageNumber].status != Mastered) ==>
      && result.pageNumber in p
      && p[result.pageNumber].status == (if result.overallScore >= 0.8 then Mastered else Started)
      && p[result.pageNumber].recitationCount ==
           (if result.pageNumber in progress then progress[result.pageNumber].recitationCount else 0) + 1
      && p[result.pageNumber].lastPracticed == now
    ensures forall page :: page != result.pageNumber ==> (page in p <==> page in progress) && (page in p ==> p[page] == progress[page])
  {
    if !result.passed then progress
    else
      var newStatus := if result.overallScore >= 0.8 then Mastered else Started;
      if result.pageNumber !in progress || progress[result.pageNumber].status != Mastered then
        var count := if result.pageNumber in progress then progress[result.pageNumber].recitationCount else 0;
        progress[result.pageNumber := PageProgress(result.pageNumber, newStatus, now, count + 1)]
      else progress
  }

  /** The progress store after a run of saves, the i-th at time nows[i]. */
  function ProgressAfterSaves<W>(progress: map<int, PageProgress>, results: seq<RecitationResult<W>>, nows: seq<int>): map<int, PageProgress>
    requires |nows| == |results|
    decreases |results|
  {
    if results == [] then progress
    else ProgressAfterSaves(ProgressAfterSave(progress, results[0], nows[0]), results[1..], nows[1..])
  }

  /** Mastered is sticky: no run of saves takes a mastered page back, nor changes its record. */
  lemma {:induction false} MasteredSticky<W>(progress: map<int, PageProgress>, results: seq<RecitationResult<W>>, nows: seq<int>, page: int)
    requires |nows| == |results|
    requires page in progress && progress[page].status == Mastered
    ensures var p := ProgressAfterSaves(progress, results, nows);
      page in p && p[page] == progress[page]
    decreases |results|
  {
    if results != [] {
      var next := ProgressAfterSave(progress, results[0], nows[0]);
      MasteredSticky(next, results[1..], nows[1..], page);
    }
  }

  /** The recitation count of a page never goes down over a run of saves (ProgressAfterSave gives the exact step). */
  lemma {:induction false} CountNeverDecreases<W>(progress: map<int, PageProgress>, results: seq<RecitationResult<W>>, nows: seq<int>, page: int)
    requires |nows| == |results|
    requires page in progress
    ensures var p := ProgressAfterSaves(progress, results, nows);
      page in p && p[page].recitationCount >= progress[page].recitationCount
    decreases |results|
  {
    if results != [] {
      var next := ProgressAfterSave(progress, results[0], nows[0]);
      CountNeverDecreases(next, results[1..], nows[1..], page);
    }
  }

  /** Some element of a non-empty set. */
  method Pick<T>(s: set<T>) returns (x: T)
    requires s != {}
    ensures x in s
  {
    x :| x in s;
  }

  /** The forEach of getProgress: map[p.page] = p for every stored record. */
  method ByPage(all: map<int, PageProgress>) returns (m: map<int, PageProgress>)
    requires forall page :: page in all ==> all[page].page == page
    ensures m == all
  {
    m := map[];
    var todo := all.Keys;
    while todo != {}
      invariant todo <= all.Keys
      invariant m == all - todo
      decreases |todo|
    {
      var key := Pick(todo);
      var p := all[key];
      m := m[p.page := p];
      todo := todo - {key};
    }
  }

  /** The three object stores; a setting value of None stands for null or undefined. */
  class Database<V, W> {
    var progress: map<int, PageProgress>
    var history: map<int, RecitationResult<W>>
    var settings: map<seq<char>, Option<V>>

    /** Every record sits under its own key (the stores' key paths). */
    predicate Valid()
      reads this
    {
      && (forall page :: page in progress ==> progress[page].page == page)
      && (forall t :: t in history ==> history[t].timestamp == t)
    }

    constructor ()
      ensures Valid()
      ensures progress == map[] && history == map[] && settings == map[]
    {
      progress := map[];
      history := map[];
      settings := map[];
    }

    /** getProgress: the records, each under its page. */
    method GetProgress() returns (m: map<int, PageProgress>)
      requires Valid()
      ensures m == progress
      ensures forall page :: page in m ==> m[page].page == page
    {
      m := ByPage(progress);
    }

    /** setPageStatus: the status is overwritten and the recitation count kept (0 for a new page). */
    method SetPageStatus(page: int, status: PageStatus, now: int)
      requires Valid()
      modifies this
      ensures Valid()
      ensures progress == old(progress)[page := PageProgress(page, status, now,
        if page in old(progress) then old(progress)[page].recitationCount else 0)]
      ensures history == old(history) && settings == old(settings)
    {
      var existing := if page in progress then Some(progress[page]) else None;
      var count := if existing.Some? then existing.value.recitationCount else 0;
      progress := progress[page := PageProgress(page, status, now, count)];
    }

    /** saveRecitationResult: the result goes to the history under its timestamp, then the page's progress is updated. */
    method SaveRecitationResult(result: RecitationResult<W>, now: int)
      requires Valid()
      modifies this
      ensures Valid()
      ensures history == old(history)[result.timestamp := result]
      ensures progress == ProgressAfterSave(old(progress), result, now)
      ensures settings == old(settings)
    {
      history := history[result.timestamp := result];
      if result.passed {
        var current := if result.pageNumber in progress then Some(progress[result.pageNumber]) else None;
        var newStatus := if result.overallScore >= 0.8 then Mastered else Started;
        if current.None? || current.value.status != Mastered {
          var count := if current.Some? then current.value.recitationCount else 0;
          progress := progress[result.pageNumber := PageProgress(result.pageNumber, newStatus, now, count + 1)];
        }
      }
    }

    /** getPageHistory: the saved results of one page (the by-page index), each under its timestamp. */
    method GetPageHistory(page: int) returns (results: map<int, RecitationResult<W>>)
      ensures forall t :: t in results <==> t in history && history[t].pageNumber == page
      ensures forall t :: t in results ==> results[t] == history[t]
    {
      results := map t | t in history && history[t].pageNumber == page :: history[t];
    }

    /** getSetting: the stored value, or the default when the key is absent or its value null or undefined. */
    method GetSetting(key: seq<char>, defaultValue: V) returns (v: V)
      ensures key in settings && settings[key].Some? ==> v == settings[key].value
      ensures key !in settings || settings[key].None? ==> v == defaultValue
    {
      var val := if key in settings then Some(settings[key]) else None;
      v := if val.Some? && val.value.Some? then val.value.value else defaultValue;
    }

    /** setSetting: the value is stored under the key. */
    method SetSetting(key: seq<char>, value: Option<V>)
      modifies this
      ensures settings == old(settings)[key := value]
      ensures progress == old(progress) && history == old(history)
    {
      settings := settings[key := value];
    }
  }

  /** A stored setting reads back, and a null one reads as the default. */
  method SettingRoundTrip<V, W>(db: Database<V, W>, key: seq<char>, value: V, defaultValue: V) returns (v: V, w: V)
    modifies db
    ensures v == value
    ensures w == defaultValue
  {
    db.SetSetting(key, Some(value));
    v := db.GetSetting(key, defaultValue);
    db.SetSetting(key, None);
    w := db.GetSetting(key, defaultValue);
  }
}
