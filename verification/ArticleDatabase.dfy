/**
 The database itself: tables that statements change in place, each row change firing its
 triggers (`database/schemas/vector.py`), and transactions that restore what they started
 from when a statement fails.
 */
module ArticleDatabase {
  import opened Options
  import opened ArticleIndex

  class Database {
    var articles: map<string, Article>
    var fts: multiset<Posting>
    var vec: map<int, Blob>
    var backup: map<int, Backup>

    ghost function Snapshot(): Db
      reads this
    {
      Db(articles, fts, vec, backup)
    }

    /** url TEXT NOT NULL UNIQUE. */
    ghost predicate Valid()
      reads this
    {
      UrlsUnique(articles)
    }

    constructor ()
      ensures Valid() && Inv(Snapshot())
    {
      articles, fts, vec, backup := map[], multiset{}, map[], map[];
    }

    method AfterInsert(current: Article)
      modifies this`fts
      ensures fts == old(fts) + multiset{PostingOf(current)}
    {
      fts := fts + multiset{Posting(current.vecRowid, current.text)};
    }

    method AfterDelete(prior: Article)
      modifies this`fts, this`vec
      ensures fts == old(fts) - multiset{PostingOf(prior)} && vec == old(vec) - {prior.vecRowid}
    {
      fts := fts - multiset{Posting(prior.vecRowid, prior.text)};
      vec := vec - {prior.vecRowid};
    }

    method AfterUpdate(prior: Article, current: Article)
      modifies this`fts, this`vec
      ensures fts == old(fts) - multiset{PostingOf(prior)} + multiset{PostingOf(current)}
      ensures vec == if prior.vecRowid != current.vecRowid || current.status == PENDING
                     then old(vec) - {prior.vecRowid}
                     else old(vec)
    {
      fts := fts - multiset{Posting(prior.vecRowid, prior.text)};
      fts := fts + multiset{Posting(current.vecRowid, current.text)};
      if prior.vecRowid != current.vecRowid || current.status == PENDING {
        vec := vec - {prior.vecRowid};
      }
    }

    method ChangeRow(id: string, a: Article)
      requires Valid() && id in articles && a.url == articles[id].url
      modifies this
      ensures Valid() && Snapshot() == UpdateRow(old(Snapshot()), id, a)
    {
      var prior := articles[id];
      articles := articles[id := a];
      AfterUpdate(prior, a);
    }

    method RemoveRow(id: string)
      requires Valid() && id in articles
      modifies this
      ensures Valid() && Snapshot() == DeleteRow(old(Snapshot()), id)
    {
      var prior := articles[id];
      articles := articles - {id};
      backup := map r | r in backup && backup[r].articleId != id :: backup[r];
      AfterDelete(prior);
    }

    /** INSERT ... ON CONFLICT(url) DO UPDATE; the url constraint is looked at first. */
    method InsertOrUpdate(id: string, vecRowid: Option<int>, row: Article) returns (ok: bool)
      requires Valid()
      modifies this
      ensures Valid()
      ensures var r := Exec(old(Snapshot()), Upsert(id, vecRowid, row));
              ok == r.Some? && Snapshot() == if r.Some? then r.value else old(Snapshot())
    {
      if vecRowid.None? { return false; }
      var a := row.(vecRowid := vecRowid.value);
      if exists k :: k in articles && articles[k].url == row.url {
        var k :| k in articles && articles[k].url == row.url;
        assert OwnsUrl(articles, k, row.url);
        assert UrlOwner(articles, row.url) == Some(k);
        ChangeRow(k, Merged(articles[k], a));
        return true;
      }
      assert forall k :: !OwnsUrl(articles, k, row.url);
      if id in articles { return false; }
      var inserted := a.(contentHash := "");
      articles := articles[id := inserted];
      AfterInsert(inserted);
      return true;
    }

    method Execute(s: Stmt) returns (ok: bool)
      requires Valid()
      modifies this
      ensures Valid()
      ensures var r := Exec(old(Snapshot()), s);
              ok == r.Some? && Snapshot() == if r.Some? then r.value else old(Snapshot())
    {
      ok := true;
      match s {
        case Upsert(id, vecRowid, row) =>
          ok := InsertOrUpdate(id, vecRowid, row);
        case DeleteVec(rowid) =>
          vec := vec - {rowid};
        case InsertVec(rowid, embedding) =>
          if rowid in vec { ok := false; } else { vec := vec[rowid := embedding]; }
        case SetEmbedded(id) =>
          if id in articles { ChangeRow(id, articles[id].(status := EMBEDDED)); }
        case PutBackup(rowid, b) =>
          if b.articleId !in articles { ok := false; } else { backup := backup[rowid := b]; }
        case SetHash(id, hash) =>
          if id in articles { ChangeRow(id, articles[id].(contentHash := hash)); }
        case DeleteArticle(id) =>
          if id in articles { RemoveRow(id); }
      }
    }

    /** The writer's transaction: a failed statement restores the tables. */
    method Transact(stmts: seq<Stmt>) returns (ok: bool)
      requires Valid()
      modifies this
      ensures Valid()
      ensures var r := ExecAll(old(Snapshot()), stmts);
              ok == r.Some? && Snapshot() == if r.Some? then r.value else old(Snapshot())
    {
      var articles0, fts0, vec0, backup0 := articles, fts, vec, backup;
      for i := 0 to |stmts|
        invariant Valid()
        invariant ExecAll(old(Snapshot()), stmts) == ExecAll(Snapshot(), stmts[i..])
      {
        ok := Execute(stmts[i]);
        assert stmts[i..][1..] == stmts[i + 1..];
        if !ok {
          articles, fts, vec, backup := articles0, fts0, vec0, backup0;
          return false;
        }
      }
      return true;
    }
  }
}
