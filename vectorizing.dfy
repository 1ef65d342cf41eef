/** The vectorizer: the stored articles loaded from the date files, the id-keyed
    dictionaries of texts and of articles, and the mapping from ids to
    embeddings. The embedding model is a parameter that encodes one text. */
module Vectorizing {
  import opened Wrappers
  import opened Dicts
  import opened TextProcessing
  import opened Normalize
  import opened ArticleIndex

  type Vector = seq<real>

  /** The articles of the date files, file after file; a file that does not
      parse contributes nothing. */
  function LoadedFrom(files: seq<BucketFile>): seq<CleanArticle> {
    if files == [] then []
    else
      var last := files[|files| - 1];
      LoadedFrom(files[..|files| - 1]) + (if last.Bucket? then last.articles else [])
  }

  /** Exactly the articles of the readable files are loaded. */
  lemma {:induction false} LoadedMembers(files: seq<BucketFile>, a: CleanArticle)
    ensures a in LoadedFrom(files) <==> exists i :: 0 <= i < |files| && files[i].Bucket? && a in files[i].articles
  {
    if files != [] {
      var front := files[..|files| - 1];
      LoadedMembers(front, a);
      if exists i :: 0 <= i < |files| && files[i].Bucket? && a in files[i].articles {
        var i :| 0 <= i < |files| && files[i].Bucket? && a in files[i].articles;
        if i < |front| {
          assert front[i] == files[i];
        }
      }
      if exists i :: 0 <= i < |front| && front[i].Bucket? && a in front[i].articles {
        var i :| 0 <= i < |front| && front[i].Bucket? && a in front[i].articles;
        assert files[i] == front[i];
      }
    }
  }

  function IdOf(a: CleanArticle): string {
    a.id
  }

  /** The text an article is embedded by: its title, " \n ", and its cleaned text. */
  function TextOf(a: CleanArticle, extract: string -> string): string {
    a.title + " \n " + CleanTextOf(a.text, extract)
  }

  /** What `prepare_texts` returns: id to text, later duplicates overwriting. */
  function TextsOf(articles: seq<CleanArticle>, extract: string -> string): Dict<string> {
    Index(articles, IdOf, a => TextOf(a, extract))
  }

  /** What `order_articles_by_id` returns: id to the last article with that id. */
  function ById(articles: seq<CleanArticle>): Dict<CleanArticle> {
    Index(articles, IdOf, a => a)
  }

  /** `{i: X[idx] for idx, i in enumerate(ids)}` with `X` the encoded texts. */
  function EmbeddingsOf(texts: Dict<string>, embed: string -> Vector): Dict<Vector> {
    seq(|texts|, i requires 0 <= i < |texts| => (texts[i].0, embed(texts[i].1)))
  }

  /** One embedding per text, under the same key and in the same order; no
      texts give no embeddings. */
  lemma {:induction false} EmbeddingsGet(texts: Dict<string>, embed: string -> Vector, k: string)
    ensures texts == [] ==> EmbeddingsOf(texts, embed) == []
    ensures Keys(EmbeddingsOf(texts, embed)) == Keys(texts)
    ensures Get(EmbeddingsOf(texts, embed), k) ==
              if Get(texts, k).Some? then Some(embed(Get(texts, k).value)) else None
  {
    var e := EmbeddingsOf(texts, embed);
    if texts != [] && texts[0].0 != k {
      EmbeddingsGet(texts[1..], embed, k);
      assert e[1..] == EmbeddingsOf(texts[1..], embed);
    }
  }

  /** The vectorizer's state: the loaded articles (`None` until loaded) and the
      id-to-article dictionary of the last vectorization. */
  class Vectorizer {
    var articles: Option<seq<CleanArticle>>
    var articlesById: Dict<CleanArticle>

    constructor ()
      ensures articles == None && articlesById == []
    {
      articles := None;
      articlesById := [];
    }

    /** `load_articales`: every article of every readable date file, in file order. */
    method LoadArticles(files: seq<BucketFile>)
      modifies this
      ensures articles == Some(LoadedFrom(files)) && articlesById == old(articlesById)
    {
      var all: seq<CleanArticle> := [];
      var i := 0;
      while i < |files|
        invariant 0 <= i <= |files|
        invariant all == LoadedFrom(files[..i])
      {
        assert files[..i + 1][..i] == files[..i];
        if files[i].Bucket? {
          all := all + files[i].articles;
        }
        i := i + 1;
      }
      assert files[..i] == files;
      articles := Some(all);
    }

    /** `prepare_texts(articles)`; `None` stands for "use the loaded articles",
        which fails when nothing was loaded. */
    method PrepareTexts(given: Option<seq<CleanArticle>>, extract: string -> string) returns (r: Result<Dict<string>>)
      ensures given.Some? ==> r == Success(TextsOf(given.value, extract))
      ensures given.None? && articles.None? ==> r.Failure?
      ensures given.None? && articles.Some? ==> r == Success(TextsOf(articles.value, extract))
    {
      var list: seq<CleanArticle>;
      if given.Some? {
        list := given.value;
      } else if articles.Some? {
        list := articles.value;
      } else {
        return Failure("AttributeError: no articles loaded");
      }
      var texts: Dict<string> := [];
      var i := 0;
      while i < |list|
        invariant 0 <= i <= |list|
        invariant texts == TextsOf(list[..i], extract)
      {
        IndexPrefix(list, i, IdOf, a => TextOf(a, extract));
        var text := EmbeddingText(list[i], extract);
        texts := Put(texts, list[i].id, text);
        i := i + 1;
      }
      assert list[..i] == list;
      r := Success(texts);
    }

    /** The text of one article, cleaned by a fresh text processor. */
    static method EmbeddingText(a: CleanArticle, extract: string -> string) returns (t: string)
      ensures t == TextOf(a, extract)
    {
      var processor := new TextProcessor(a.text);
      var clean := processor.CleanText("", extract);
      t := a.title + " \n " + clean;
    }

    /** `order_articles_by_id`: fails when nothing was loaded. */
    method OrderArticlesById() returns (r: Result<Dict<CleanArticle>>)
      ensures articles.None? ==> r.Failure?
      ensures articles.Some? ==> r == Success(ById(articles.value))
    {
      if articles.None? {
        return Failure("ValueError: Articles not loaded. Please run load_articales() first.");
      }
      var list := articles.value;
      var byId: Dict<CleanArticle> := [];
      var i := 0;
      while i < |list|
        invariant 0 <= i <= |list|
        invariant byId == ById(list[..i])
      {
        IndexPrefix(list, i, IdOf, a => a);
        byId := Put(byId, list[i].id, list[i]);
        i := i + 1;
      }
      assert list[..i] == list;
      r := Success(byId);
    }

    /** `vectorize_texts`: the encoded texts in key order and the id-to-embedding
        dictionary; both empty when there is no text. */
    method VectorizeTexts(extract: string -> string, embed: string -> Vector)
      returns (r: Result<(seq<Vector>, Dict<Vector>)>)
      modifies this
      ensures articles == old(articles)
      ensures old(articles).None? ==> r.Failure? && articlesById == old(articlesById)
      ensures old(articles).Some? ==>
        var e := EmbeddingsOf(TextsOf(articles.value, extract), embed);
        r == Success((Values(e), e)) && articlesById == ById(articles.value)
    {
      var texts := PrepareTexts(None, extract);
      if texts.Failure? {
        return Failure(texts.error);
      }
      var byId := OrderArticlesById();
      articlesById := byId.value;
      var ids := Keys(texts.value);
      var sentences := Values(texts.value);
      if |sentences| == 0 {
        assert texts.value == [];
        return Success(([], []));
      }
      var x := seq(|sentences|, i requires 0 <= i < |sentences| => embed(sentences[i]));
      var embeddings := seq(|ids|, i requires 0 <= i < |ids| && i < |x| => (ids[i], x[i]));
      assert embeddings == EmbeddingsOf(texts.value, embed);
      assert x == Values(embeddings);
      r := Success((x, embeddings));
    }
  }
}
