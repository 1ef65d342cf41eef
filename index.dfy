/** The incremental article index kept by the cleaner's main block: an index
    document with a list of known ids, and one bucket file per UTC date that
    collects the articles first seen that day. A file that is missing or does
    not parse counts as empty; the clock is a parameter. */
module ArticleIndex {
  import opened Wrappers
  import opened Seqs
  import opened Normalize

  /** The value under an id key of the index document. */
  datatype IdEntry = Absent | IdList(ids: seq<string>) | NotAList

  /** The two keys the code looks at; every other key is carried along untouched. */
  datatype IndexDoc = IndexDoc(id: IdEntry, ids: IdEntry)

  /** `index.json`: missing, present but unreadable, or a document. */
  datatype IndexFile = NoFile | Corrupt | Doc(doc: IndexDoc)

  /** A date bucket: unreadable, or a list of articles. */
  datatype BucketFile = CorruptBucket | Bucket(articles: seq<CleanArticle>)

  datatype Key = IdKey | IdsKey

  /** The state after one run: the index file, the buckets and the articles added. */
  datatype Outcome = Outcome(index: IndexFile, byDate: map<string, BucketFile>, added: seq<CleanArticle>)

  /** `json.load(f) or {}`, and `{}` when the file is missing or does not parse. */
  function Loaded(f: IndexFile): (d: IndexDoc)
    ensures f.Doc? ==> d == f.doc
    ensures !f.Doc? ==> d == IndexDoc(Absent, Absent)
  {
    if f.Doc? then f.doc else IndexDoc(Absent, Absent)
  }

  /** "id" when it holds a list, else "ids" when that holds a list, else "id". */
  function KeyOf(d: IndexDoc): (k: Key)
    ensures d.id.IdList? ==> k == IdKey
    ensures k == IdsKey <==> !d.id.IdList? && d.ids.IdList?
  {
    if d.id.IdList? then IdKey else if d.ids.IdList? then IdsKey else IdKey
  }

  function Entry(d: IndexDoc, k: Key): IdEntry {
    match k
    case IdKey => d.id
    case IdsKey => d.ids
  }

  function WithEntry(d: IndexDoc, k: Key, e: IdEntry): (r: IndexDoc)
    ensures Entry(r, k) == e
    ensures k == IdKey ==> r.ids == d.ids
    ensures k == IdsKey ==> r.id == d.id
  {
    match k
    case IdKey => d.(id := e)
    case IdsKey => d.(ids := e)
  }

  function IdsOf(articles: seq<CleanArticle>): (r: seq<string>)
    ensures |r| == |articles|
    ensures forall i :: 0 <= i < |r| ==> r[i] == articles[i].id
  {
    seq(|articles|, i requires 0 <= i < |articles| => articles[i].id)
  }

  /** The article, when its id is not among the ids known before the run. */
  function IfNew(a: CleanArticle, before: set<string>): (o: Option<CleanArticle>)
    ensures o.Some? <==> a.id !in before
    ensures o.Some? ==> o.value == a
  {
    if a.id in before then None else Some(a)
  }

  /** The articles of the batch whose id was not known before the run, in batch
      order. Membership is checked against the ids known before the run only. */
  function NewArticles(cleaned: seq<CleanArticle>, before: set<string>): (r: seq<CleanArticle>)
    ensures |r| <= |cleaned|
  {
    FilterMap(cleaned, a => IfNew(a, before))
  }

  /** An article is added exactly when it is in the batch with an unknown id. */
  lemma NewArticlesMembers(cleaned: seq<CleanArticle>, before: set<string>, a: CleanArticle)
    ensures a in NewArticles(cleaned, before) <==> a in cleaned && a.id !in before
  {
    FilterMapMembers(cleaned, x => IfNew(x, before), a);
    if a in cleaned && a.id !in before {
      var i :| 0 <= i < |cleaned| && cleaned[i] == a;
      assert IfNew(cleaned[i], before) == Some(a);
    }
  }

  /** A bucket's articles, with a missing or unreadable bucket read as empty. */
  function BucketItems(byDate: map<string, BucketFile>, day: string): seq<CleanArticle> {
    if day in byDate && byDate[day].Bucket? then byDate[day].articles else []
  }

  /** One run of the main block on the cleaned batch, or the error it stops with
      when the chosen id entry holds something other than a list. */
  function IngestOf(index: IndexFile, byDate: map<string, BucketFile>, cleaned: seq<CleanArticle>, today: string)
    : (r: Result<Outcome>)
    ensures r.Failure? <==> Entry(Loaded(index), KeyOf(Loaded(index))).NotAList?
    ensures r.Success? ==> |r.value.added| <= |cleaned|
  {
    var doc := Loaded(index);
    var key := KeyOf(doc);
    var entry := Entry(doc, key);
    if entry.NotAList? then Failure("TypeError: the id entry is not a list")
    else
      var prior := if entry.IdList? then entry.ids else [];
      var seeded := WithEntry(doc, key, IdList(prior));
      var added := NewArticles(cleaned, set x | x in prior);
      var created := if index.NoFile? then Doc(seeded) else index;
      if added == [] then Success(Outcome(created, byDate, []))
      else
        Success(Outcome(Doc(WithEntry(doc, key, IdList(prior + IdsOf(added)))),
                        byDate[today := Bucket(BucketItems(byDate, today) + added)], added))
  }

  /** The ids known before the run, under the key the run uses. */
  function PriorIds(index: IndexFile): seq<string> {
    var entry := Entry(Loaded(index), KeyOf(Loaded(index)));
    if entry.IdList? then entry.ids else []
  }

  /** The id list after a run is the old list followed by the new ids; the
      bucket of the day is the old bucket followed by the new articles. */
  lemma IngestAppends(index: IndexFile, byDate: map<string, BucketFile>, cleaned: seq<CleanArticle>, today: string)
    requires IngestOf(index, byDate, cleaned, today).Success?
    ensures var out := IngestOf(index, byDate, cleaned, today).value;
      var key := KeyOf(Loaded(index));
      && out.added == NewArticles(cleaned, set x | x in PriorIds(index))
      && (out.added != [] ==>
            && out.index == Doc(WithEntry(Loaded(index), key, IdList(PriorIds(index) + IdsOf(out.added))))
            && out.byDate == byDate[today := Bucket(BucketItems(byDate, today) + out.added)])
  {
  }

  /** When no id is new, no bucket is touched and an existing index is left as it is;
      only a missing index is created, holding the key with the (empty) old list. */
  lemma NothingNewNothingWritten(index: IndexFile, byDate: map<string, BucketFile>, cleaned: seq<CleanArticle>, today: string)
    requires IngestOf(index, byDate, cleaned, today).Success?
    requires forall i :: 0 <= i < |cleaned| ==> cleaned[i].id in PriorIds(index)
    ensures var out := IngestOf(index, byDate, cleaned, today).value;
      && out.added == [] && out.byDate == byDate
      && (!index.NoFile? ==> out.index == index)
  {
    var before := set x | x in PriorIds(index);
    FilterMapLength(cleaned, a => IfNew(a, before));
  }

  /** Running the same batch twice adds nothing the second time. */
  lemma ReingestAddsNothing(index: IndexFile, byDate: map<string, BucketFile>, cleaned: seq<CleanArticle>, today: string)
    requires IngestOf(index, byDate, cleaned, today).Success?
    ensures var out := IngestOf(index, byDate, cleaned, today).value;
      && IngestOf(out.index, out.byDate, cleaned, today).Success?
      && IngestOf(out.index, out.byDate, cleaned, today).value.added == []
  {
    var out := IngestOf(index, byDate, cleaned, today).value;
    var prior := PriorIds(index);
    var before := set x | x in prior;
    var added := NewArticles(cleaned, before);
    var key := KeyOf(Loaded(index));
    var prior2 := PriorIds(out.index);
    if added == [] {
      if index.NoFile? {
        assert Loaded(out.index) == WithEntry(Loaded(index), key, IdList(prior));
      }
      assert prior2 == prior;
    } else {
      assert Loaded(out.index) == WithEntry(Loaded(index), key, IdList(prior + IdsOf(added)));
      assert KeyOf(Loaded(out.index)) == key;
      assert prior2 == prior + IdsOf(added);
    }
    forall i | 0 <= i < |cleaned|
      ensures cleaned[i].id in prior2
    {
      if cleaned[i].id !in before {
        NewArticlesMembers(cleaned, before, cleaned[i]);
        var j :| 0 <= j < |added| && added[j] == cleaned[i];
        assert IdsOf(added)[j] == cleaned[i].id;
      }
    }
    NothingNewNothingWritten(out.index, out.byDate, cleaned, today);
  }

  /** An article that appears twice in one batch with an unknown id is added twice. */
  lemma RepeatedIdAddedTwice(index: IndexFile, byDate: map<string, BucketFile>, a: CleanArticle, today: string)
    requires IngestOf(index, byDate, [a, a], today).Success?
    requires a.id !in PriorIds(index)
    ensures IngestOf(index, byDate, [a, a], today).value.added == [a, a]
  {
    var before := set x | x in PriorIds(index);
    var f := x => IfNew(x, before);
    FilterMapPrefix([a, a], 0, f);
    FilterMapPrefix([a, a], 1, f);
    assert [a, a][..2] == [a, a];
    assert [a, a][..0] == [];
  }

  /** The store the main block reads and writes: the index file, the date buckets
      and the `cleaned_articles.json` output. */
  class ArticleDb {
    var index: IndexFile
    var byDate: map<string, BucketFile>
    var cleanedOutput: seq<CleanArticle>

    constructor (index0: IndexFile, byDate0: map<string, BucketFile>)
      ensures index == index0 && byDate == byDate0 && cleanedOutput == []
    {
      index := index0;
      byDate := byDate0;
      cleanedOutput := [];
    }

    /** The loop that collects the articles whose id was unknown before the run. */
    static method FindNew(cleaned: seq<CleanArticle>, before: set<string>)
      returns (newArticles: seq<CleanArticle>, newIds: seq<string>)
      ensures newArticles == NewArticles(cleaned, before)
      ensures newIds == IdsOf(newArticles)
    {
      newArticles, newIds := [], [];
      var i := 0;
      while i < |cleaned|
        invariant 0 <= i <= |cleaned|
        invariant newArticles == NewArticles(cleaned[..i], before)
        invariant newIds == IdsOf(newArticles)
      {
        FilterMapPrefix(cleaned, i, a => IfNew(a, before));
        if cleaned[i].id !in before {
          newArticles := newArticles + [cleaned[i]];
          newIds := newIds + [cleaned[i].id];
        }
        i := i + 1;
      }
      assert cleaned[..i] == cleaned;
    }

    /** The main block after cleaning: the index and the day's bucket are
        extended with the new articles, and the whole batch is saved. On an
        error nothing is written. */
    method Ingest(cleaned: seq<CleanArticle>, today: string) returns (r: Result<seq<CleanArticle>>)
      modifies this
      ensures var spec := IngestOf(old(index), old(byDate), cleaned, today);
        && (spec.Failure? ==> r.Failure? && index == old(index) && byDate == old(byDate) && cleanedOutput == old(cleanedOutput))
        && (spec.Success? ==>
              r == Success(spec.value.added) && index == spec.value.index && byDate == spec.value.byDate && cleanedOutput == cleaned)
    {
      var doc := Loaded(index);
      var key := KeyOf(doc);
      var entry := Entry(doc, key);
      if entry.NotAList? {
        return Failure("TypeError: the id entry is not a list");
      }
      var prior := if entry.IdList? then entry.ids else [];
      var seeded := WithEntry(doc, key, IdList(prior));
      var before := set x | x in prior;
      if index.NoFile? {
        index := Doc(seeded);
      }
      var added, newIds := FindNew(cleaned, before);
      if added != [] {
        index := Doc(WithEntry(seeded, key, IdList(prior + newIds)));
        var bucket := BucketItems(byDate, today);
        byDate := byDate[today := Bucket(bucket + added)];
      }
      cleanedOutput := cleaned;
      r := Success(added);
    }
  }
}
