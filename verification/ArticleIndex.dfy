/**
 The article table and the indexes its triggers keep (`database/schemas/vector.py`), and the
 statements `ArticleStore` sends to it (`database/articles/store.py`).

 The full-text index is the multiset of its postings (rowid, text); the vector table maps
 rowids to blobs.  Statements are functions on the database that fail with None; the class
 below executes them in place, trigger by trigger.
 */
module ArticleIndex {
  import opened Options

  type Blob = seq<bv8>

  datatype Status = PENDING | EMBEDDED | SKIPPED

  /** The columns the full-text index covers. */
  datatype Text = Text(title: Option<string>, conclusion: Option<string>, summary: Option<string>)

  datatype Article = Article(vecRowid: int, url: string, text: Text, metadata: string, status: Status,
                             contentHash: string, scrapedAt: string, updatedAt: string)

  datatype Posting = Posting(rowid: int, text: Text)

  datatype Backup = Backup(articleId: string, embedding: Blob, hashedAt: string)

  datatype Db = Db(articles: map<string, Article>, fts: multiset<Posting>, vec: map<int, Blob>,
                   backup: map<int, Backup>)

  function PostingOf(a: Article): Posting { Posting(a.vecRowid, a.text) }

  // ---------------------------------------------------------------------------------
  // Row changes and their triggers
  // ---------------------------------------------------------------------------------

  /** An insert and the AFTER INSERT trigger. */
  function InsertRow(db: Db, id: string, a: Article): Db {
    db.(articles := db.articles[id := a], fts := db.fts + multiset{PostingOf(a)})
  }

  /** An update and the two AFTER UPDATE triggers. */
  function UpdateRow(db: Db, id: string, a: Article): Db
    requires id in db.articles
  {
    var prior := db.articles[id];
    Db(db.articles[id := a],
       db.fts - multiset{PostingOf(prior)} + multiset{PostingOf(a)},
       if prior.vecRowid != a.vecRowid || a.status == PENDING then db.vec - {prior.vecRowid} else db.vec,
       db.backup)
  }

  /** A delete, the AFTER DELETE trigger and the cascade to the backup table. */
  function DeleteRow(db: Db, id: string): Db
    requires id in db.articles
  {
    var prior := db.articles[id];
    Db(db.articles - {id},
       db.fts - multiset{PostingOf(prior)},
       db.vec - {prior.vecRowid},
       map r | r in db.backup && db.backup[r].articleId != id :: db.backup[r])
  }

  // ---------------------------------------------------------------------------------
  // Statements
  // ---------------------------------------------------------------------------------

  datatype Stmt =
    | Upsert(id: string, vecRowid: Option<int>, row: Article)
    | DeleteVec(rowid: int)
    | InsertVec(rowid: int, embedding: Blob)
    | SetEmbedded(id: string)
    | PutBackup(rowid: int, backup: Backup)
    | SetHash(id: string, hash: string)
    | DeleteArticle(id: string)

  ghost predicate OwnsUrl(articles: map<string, Article>, id: string, url: string) {
    id in articles && articles[id].url == url
  }

  /** The row an insert with this url collides with. */
  ghost function UrlOwner(articles: map<string, Article>, url: string): (r: Option<string>)
    ensures r.Some? ==> OwnsUrl(articles, r.value, url)
    ensures r.None? ==> forall id :: !OwnsUrl(articles, id, url)
  {
    if exists id :: OwnsUrl(articles, id, url) then
      var id :| OwnsUrl(articles, id, url);
      Some(id)
    else None
  }

  /** The columns ON CONFLICT(url) DO UPDATE overwrites. */
  function Merged(existing: Article, current: Article): Article {
    existing.(vecRowid := current.vecRowid, text := current.text, metadata := current.metadata,
              status := current.status, updatedAt := current.updatedAt)
  }

  ghost function Exec(db: Db, s: Stmt): Option<Db> {
    match s
    case Upsert(id, vecRowid, row) =>
      if vecRowid.None? then None                      // vec_rowid INTEGER NOT NULL
      else
        var a := row.(vecRowid := vecRowid.value);
        var owner := UrlOwner(db.articles, row.url);
        if owner.Some? then Some(UpdateRow(db, owner.value, Merged(db.articles[owner.value], a)))
        else if id in db.articles then None            // id TEXT NOT NULL PRIMARY KEY
        else Some(InsertRow(db, id, a.(contentHash := "")))   // content_hash TEXT ... DEFAULT ''
    case DeleteVec(rowid) => Some(db.(vec := db.vec - {rowid}))
    case InsertVec(rowid, embedding) =>
      if rowid in db.vec then None else Some(db.(vec := db.vec[rowid := embedding]))
    case SetEmbedded(id) =>
      Some(if id in db.articles then UpdateRow(db, id, db.articles[id].(status := EMBEDDED)) else db)
    case PutBackup(rowid, backup) =>
      if backup.articleId !in db.articles then None    // FOREIGN KEY (article_id)
      else Some(db.(backup := db.backup[rowid := backup]))
    case SetHash(id, hash) =>
      Some(if id in db.articles then UpdateRow(db, id, db.articles[id].(contentHash := hash)) else db)
    case DeleteArticle(id) =>
      Some(if id in db.articles then DeleteRow(db, id) else db)
  }

  /** A transaction: all statements or none. */
  ghost function ExecAll(db: Db, stmts: seq<Stmt>): Option<Db>
    decreases |stmts|
  {
    if stmts == [] then Some(db)
    else
      var r := Exec(db, stmts[0]);
      if r.None? then None else ExecAll(r.value, stmts[1..])
  }

  // ---------------------------------------------------------------------------------
  // The invariant
  // ---------------------------------------------------------------------------------

  /** The postings of all articles. */
  ghost function Postings(articles: map<string, Article>): multiset<Posting>
    decreases |articles|
  {
    if articles == map[] then multiset{}
    else
      var id :| id in articles;
      assert |articles - {id}| < |articles| by { SmallerMap(articles, id); }
      multiset{PostingOf(articles[id])} + Postings(articles - {id})
  }

  lemma SmallerMap<V>(m: map<string, V>, k: string)
    requires k in m
    ensures |m - {k}| < |m|
  {
    assert m == (m - {k})[k := m[k]];
    assert (m - {k}).Keys == m.Keys - {k};
  }

  lemma PostingsFirst(articles: map<string, Article>) returns (first: string)
    requires articles != map[]
    ensures first in articles
    ensures Postings(articles) == multiset{PostingOf(articles[first])} + Postings(articles - {first})
  {
    first :| first in articles
             && Postings(articles) == multiset{PostingOf(articles[first])} + Postings(articles - {first});
  }

  lemma RemoveBoth(m: map<string, Article>, a: string, b: string)
    requires a in m && b in m && a != b
    ensures a in m - {b} && b in m - {a} && (m - {a})[b] == m[b] && (m - {b})[a] == m[a]
    ensures (m - {a}) - {b} == (m - {b}) - {a}
    ensures |m - {a}| < |m| && |m - {b}| < |m|
  {
    SmallerMap(m, a);
    SmallerMap(m, b);
  }

  /** Any article may be taken out first. */
  lemma {:induction false} PostingsTake(articles: map<string, Article>, id: string)
    requires id in articles
    ensures Postings(articles) == multiset{PostingOf(articles[id])} + Postings(articles - {id})
    decreases |articles|
  {
    hide Postings;
    var first := PostingsFirst(articles);
    if first != id {
      RemoveBoth(articles, first, id);
      PostingsTake(articles - {first}, id);
      PostingsTake(articles - {id}, first);
    }
  }

  lemma PostingsPut(articles: map<string, Article>, id: string, a: Article)
    ensures Postings(articles[id := a]) == Postings(articles - {id}) + multiset{PostingOf(a)}
  {
    PostingsTake(articles[id := a], id);
    assert articles[id := a] - {id} == articles - {id};
  }

  ghost predicate RowidsUnique(articles: map<string, Article>) {
    forall i, j :: i in articles && j in articles && articles[i].vecRowid == articles[j].vecRowid ==> i == j
  }

  ghost predicate UrlsUnique(articles: map<string, Article>) {
    forall i, j :: i in articles && j in articles && articles[i].url == articles[j].url ==> i == j
  }

  ghost predicate HasRowid(articles: map<string, Article>, rowid: int) {
    exists id :: id in articles && articles[id].vecRowid == rowid
  }

  /** The full-text index is exactly the image of the article table. */
  ghost predicate FtsOk(db: Db) { db.fts == Postings(db.articles) }

  /** Every vector belongs to an article; a pending article has none; an embedded one has one. */
  ghost predicate VecOk(db: Db) {
    && (forall r :: r in db.vec ==> HasRowid(db.articles, r))
    && (forall id :: id in db.articles && db.articles[id].status == PENDING ==> db.articles[id].vecRowid !in db.vec)
    && (forall id :: id in db.articles && db.articles[id].status == EMBEDDED ==> db.articles[id].vecRowid in db.vec)
  }

  ghost predicate BackupOk(db: Db) {
    forall r :: r in db.backup ==> db.backup[r].articleId in db.articles
  }

  ghost predicate Inv(db: Db) {
    FtsOk(db) && UrlsUnique(db.articles) && RowidsUnique(db.articles) && VecOk(db) && BackupOk(db)
  }

  // ---------------------------------------------------------------------------------
  // The full-text index is exact after every statement, with no condition at all
  // ---------------------------------------------------------------------------------

  lemma UpdateKeepsFts(db: Db, id: string, a: Article)
    requires FtsOk(db) && id in db.articles
    ensures FtsOk(UpdateRow(db, id, a)) && PostingOf(db.articles[id]) in db.fts
  {
    PostingsTake(db.articles, id);
    PostingsPut(db.articles, id, a);
  }

  lemma ExecKeepsFts(db: Db, s: Stmt)
    requires FtsOk(db) && Exec(db, s).Some?
    ensures FtsOk(Exec(db, s).value)
  {
    hide UpdateRow, DeleteRow, InsertRow, Merged, Postings;
    match s
    case Upsert(id, vecRowid, row) =>
      UpsertKeepsFts(db, id, row.(vecRowid := vecRowid.value));
    case SetEmbedded(id) =>
      if id in db.articles { UpdateKeepsFts(db, id, db.articles[id].(status := EMBEDDED)); }
    case SetHash(id, hash) =>
      if id in db.articles { UpdateKeepsFts(db, id, db.articles[id].(contentHash := hash)); }
    case DeleteArticle(id) =>
      if id in db.articles { DeleteKeepsFts(db, id); }
    case _ =>
  }

  lemma UpsertKeepsFts(db: Db, id: string, a: Article)
    requires FtsOk(db)
    ensures var owner := UrlOwner(db.articles, a.url);
            if owner.Some? then FtsOk(UpdateRow(db, owner.value, Merged(db.articles[owner.value], a)))
            else id !in db.articles ==> FtsOk(InsertRow(db, id, a.(contentHash := "")))
  {
    var owner := UrlOwner(db.articles, a.url);
    if owner.Some? {
      UpdateKeepsFts(db, owner.value, Merged(db.articles[owner.value], a));
    } else if id !in db.articles {
      PostingsPut(db.articles, id, a.(contentHash := ""));
      assert db.articles - {id} == db.articles;
    }
  }

  lemma DeleteKeepsFts(db: Db, id: string)
    requires FtsOk(db) && id in db.articles
    ensures FtsOk(DeleteRow(db, id))
  {
    PostingsTake(db.articles, id);
  }

  /** Any transaction, committed or rolled back, leaves the full-text index exact. */
  lemma {:induction false} TransactionKeepsFts(db: Db, stmts: seq<Stmt>)
    requires FtsOk(db)
    ensures ExecAll(db, stmts).Some? ==> FtsOk(ExecAll(db, stmts).value)
    decreases |stmts|
  {
    if stmts != [] && Exec(db, stmts[0]).Some? {
      ExecKeepsFts(db, stmts[0]);
      TransactionKeepsFts(Exec(db, stmts[0]).value, stmts[1..]);
    }
  }
}
