/**
 `ArticleStore` (`database/articles/store.py`): the statements of an upsert and a delete,
 the search for a free rowid, and what a committed transaction does to the database.
 */
module ArticleStore {
  import opened Options
  import opened ArticleIndex

  // ---------------------------------------------------------------------------------
  // Building the statements
  // ---------------------------------------------------------------------------------

  /** The metadata of an upsert; the rowid may be missing. */
  datatype Meta = Meta(vecRowid: Option<int>, row: Article)

  predicate StoresVector(m: Meta, embedding: Blob) {
    embedding != [] && m.row.status == EMBEDDED && m.vecRowid.Some?
  }

  function VectorStatements(id: string, rowid: int, embedding: Blob, at: string): seq<Stmt> {
    [DeleteVec(rowid), InsertVec(rowid, embedding), SetEmbedded(id), PutBackup(rowid, Backup(id, embedding, at))]
  }

  /** `embedding` is empty when no bytes are supplied. */
  function UpsertStatements(id: string, m: Meta, embedding: Blob, hash: string): seq<Stmt> {
    [Upsert(id, m.vecRowid, m.row)]
    + (if StoresVector(m, embedding) then VectorStatements(id, m.vecRowid.value, embedding, m.row.updatedAt) else [])
    + (if hash != "" then [SetHash(id, hash)] else [])
  }

  method BuildUpsertStatements(id: string, m: Meta, embedding: Blob, hash: string) returns (stmts: seq<Stmt>)
    ensures stmts == UpsertStatements(id, m, embedding, hash)
  {
    stmts := [Upsert(id, m.vecRowid, m.row)];
    if embedding != [] && m.row.status == EMBEDDED && m.vecRowid.Some? {
      stmts := stmts + [DeleteVec(m.vecRowid.value)];
      stmts := stmts + [InsertVec(m.vecRowid.value, embedding)];
      stmts := stmts + [SetEmbedded(id)];
      stmts := stmts + [PutBackup(m.vecRowid.value, Backup(id, embedding, m.row.updatedAt))];
    }
    if hash != "" {
      stmts := stmts + [SetHash(id, hash)];
    }
  }

  /** `_ensure_unique_vec_rowid`: keep the rowid unless another article has it, else try
      random ones, ten lookups in all.  A lookup may find any of the rows with that rowid. */
  method EnsureUniqueVecRowid(articles: map<string, Article>, rowid: int, id: string,
                              random: nat -> int) returns (r: Option<int>)
    ensures r.Some? ==> (id in articles && articles[id].vecRowid == r.value) || !HasRowid(articles, r.value)
    ensures r.Some? && RowidsUnique(articles) ==> !TakenByOther(articles, r.value, id)
    ensures !TakenByOther(articles, rowid, id) ==> r == Some(rowid)
    ensures r.None? ==> TakenByOther(articles, rowid, id) && forall k :: 0 <= k < 9 ==>
              TakenByOther(articles, random(k), id)
  {
    var current, attempts := rowid, 0;
    while attempts < 10
      invariant 0 <= attempts <= 10
      invariant attempts == 0 ==> current == rowid
      invariant attempts > 0 ==> TakenByOther(articles, rowid, id) && current == random(attempts - 1)
      invariant forall k :: 0 <= k < attempts - 1 ==> TakenByOther(articles, random(k), id)
    {
      if !(exists k :: k in articles && articles[k].vecRowid == current) {
        assert !HasRowid(articles, current);
        return Some(current);
      }
      var found :| found in articles && articles[found].vecRowid == current;
      if found == id { return Some(current); }
      current := random(attempts);
      attempts := attempts + 1;
    }
    return None;
  }

  ghost predicate TakenByOther(articles: map<string, Article>, rowid: int, id: string) {
    exists k :: k in articles && articles[k].vecRowid == rowid && k != id
  }

  // ---------------------------------------------------------------------------------
  // What a committed upsert does
  // ---------------------------------------------------------------------------------

  /** The row an upsert ends up in. */
  ghost function Target(db: Db, id: string, url: string): string {
    var owner := UrlOwner(db.articles, url);
    if owner.Some? then owner.value else id
  }

  /** The vectors without the one the target row had. */
  ghost function VecWithout(db: Db, t: string): map<int, Blob> {
    if t in db.articles then db.vec - {db.articles[t].vecRowid} else db.vec
  }

  /** The vectors after the row was written. */
  ghost function VecWritten(db: Db, t: string, rowid: int, status: Status): map<int, Blob> {
    if t in db.articles && (db.articles[t].vecRowid != rowid || status == PENDING) then VecWithout(db, t) else db.vec
  }

  /** The new row keeps what ON CONFLICT does not overwrite. */
  ghost function RowAfter(db: Db, t: string, rowid: int, row: Article): Article {
    var a := row.(vecRowid := rowid);
    if t in db.articles then Merged(db.articles[t], a) else a.(contentHash := "")
  }

  /** The first statement: the target row is written, its stale vector removed. */
  lemma UpsertFirst(db: Db, id: string, m: Meta)
    requires Exec(db, Upsert(id, m.vecRowid, m.row)).Some?
    ensures m.vecRowid.Some? && (UrlOwner(db.articles, m.row.url).None? ==> id !in db.articles)
    ensures var t, rowid := Target(db, id, m.row.url), m.vecRowid.value;
            var d := Exec(db, Upsert(id, m.vecRowid, m.row)).value;
            && d.articles == db.articles[t := RowAfter(db, t, rowid, m.row)] && d.backup == db.backup
            && d.vec == VecWritten(db, t, rowid, m.row.status)
  {
  }

  lemma ExecAllCons(db: Db, s: Stmt, rest: seq<Stmt>)
    ensures ExecAll(db, [s] + rest) == if Exec(db, s).None? then None else ExecAll(Exec(db, s).value, rest)
  {
    assert ([s] + rest)[1..] == rest;
  }

  /** The four vector statements. */
  lemma VectorRun(d: Db, id: string, rowid: int, embedding: Blob, at: string, rest: seq<Stmt>)
    requires id in d.articles
    ensures ExecAll(d, VectorStatements(id, rowid, embedding, at) + rest)
         == ExecAll(WithVector(d, id, rowid, embedding, at), rest)
  {
    var backup := Backup(id, embedding, at);
    var d1 := d.(vec := d.vec - {rowid});
    var d2 := d.(vec := d1.vec[rowid := embedding]);
    var d3 := UpdateRow(d2, id, d2.articles[id].(status := EMBEDDED));
    assert d2.vec == d.vec[rowid := embedding];
    var rest3 := [PutBackup(rowid, backup)] + rest;
    var rest2 := [SetEmbedded(id)] + rest3;
    var rest1 := [InsertVec(rowid, embedding)] + rest2;
    assert VectorStatements(id, rowid, embedding, at) + rest == [DeleteVec(rowid)] + rest1;
    ExecAllCons(d, DeleteVec(rowid), rest1);
    ExecAllCons(d1, InsertVec(rowid, embedding), rest2);
    ExecAllCons(d2, SetEmbedded(id), rest3);
    ExecAllCons(d3, PutBackup(rowid, backup), rest);
  }

  /** The database after the four vector statements. */
  ghost function WithVector(d: Db, id: string, rowid: int, embedding: Blob, at: string): (r: Db)
    requires id in d.articles
    ensures r.articles == d.articles[id := d.articles[id].(status := EMBEDDED)]
    ensures r.vec == d.vec[rowid := embedding] && r.backup == d.backup[rowid := Backup(id, embedding, at)]
  {
    var marked := UpdateRow(d.(vec := d.vec[rowid := embedding]), id, d.articles[id].(status := EMBEDDED));
    marked.(backup := d.backup[rowid := Backup(id, embedding, at)])
  }

  /** The hash statement writes the hash of the article, and removes its vector if it is
      pending, as every update does. */
  lemma HashRun(d: Db, id: string, hash: string)
    ensures var e := ExecAll(d, HashStatements(id, hash));
            && e.Some? && e.value.backup == d.backup && e.value.articles == Touched(d.articles, id, false, hash)
            && e.value.vec == VecHashed(d, id, hash)
  {
    if hash == "" {
      assert id in d.articles ==> d.articles[id := d.articles[id]] == d.articles;
    } else {
      ExecAllCons(d, SetHash(id, hash), []);
      assert [SetHash(id, hash)] + [] == [SetHash(id, hash)];
    }
  }

  ghost function VecHashed(d: Db, id: string, hash: string): map<int, Blob> {
    if hash != "" && id in d.articles && d.articles[id].status == PENDING
    then d.vec - {d.articles[id].vecRowid}
    else d.vec
  }

  /** The article with the given id after the later statements: marked as embedded if a
      vector is stored, and with its hash. */
  ghost function Touched(articles: map<string, Article>, id: string, stores: bool, hash: string): map<string, Article> {
    if id !in articles then articles
    else
      var a := if stores then articles[id].(status := EMBEDDED) else articles[id];
      articles[id := if hash != "" then a.(contentHash := hash) else a]
  }

  /** What a committed upsert does to the tables, whatever its arguments. */
  lemma UpsertWrites(db: Db, id: string, m: Meta, embedding: Blob, hash: string)
    requires ExecAll(db, UpsertStatements(id, m, embedding, hash)).Some?
    ensures m.vecRowid.Some? && (UrlOwner(db.articles, m.row.url).None? ==> id !in db.articles)
    ensures var t, rowid, stores := Target(db, id, m.row.url), m.vecRowid.value, StoresVector(m, embedding);
            var e := ExecAll(db, UpsertStatements(id, m, embedding, hash)).value;
            var written := db.(articles := db.articles[t := RowAfter(db, t, rowid, m.row)],
                               vec := VecWritten(db, t, rowid, m.row.status));
            && (stores ==> id in written.articles)
            && e.articles == Touched(written.articles, id, stores, hash)
            && e.vec == (if stores then written.vec[rowid := embedding] else VecHashed(written, id, hash))
            && e.backup == if stores then db.backup[rowid := Backup(id, embedding, m.row.updatedAt)] else db.backup
  {
    UpsertSplit(db, id, m, embedding, hash);
    UpsertFirst(db, id, m);
    var d := Exec(db, Upsert(id, m.vecRowid, m.row)).value;
    var t, rowid, at := Target(db, id, m.row.url), m.vecRowid.value, m.row.updatedAt;
    hide Exec, ExecAll, UpsertStatements, UrlOwner;
    if StoresVector(m, embedding) {
      if id !in d.articles {
        NoSuchArticleFails(d, id, rowid, embedding, at, HashStatements(id, hash));
      }
      VectorRun(d, id, rowid, embedding, at, HashStatements(id, hash));
      HashRun(WithVector(d, id, rowid, embedding, at), id, hash);
      hide WithVector;
      assert Touched(d.articles[id := d.articles[id].(status := EMBEDDED)], id, false, hash) ==
               Touched(d.articles, id, true, hash);
    } else {
      HashRun(d, id, hash);
    }
  }

  function HashStatements(id: string, hash: string): seq<Stmt> {
    if hash != "" then [SetHash(id, hash)] else []
  }

  lemma UpsertSplit(db: Db, id: string, m: Meta, embedding: Blob, hash: string)
    ensures var r := Exec(db, Upsert(id, m.vecRowid, m.row));
            ExecAll(db, UpsertStatements(id, m, embedding, hash))
            == if r.None? then None
               else if StoresVector(m, embedding) then
                 ExecAll(r.value, VectorStatements(id, m.vecRowid.value, embedding, m.row.updatedAt) +
                         HashStatements(id, hash))
               else ExecAll(r.value, HashStatements(id, hash))
  {
    var vectors := if StoresVector(m, embedding)
                   then VectorStatements(id, m.vecRowid.value, embedding, m.row.updatedAt)
                   else [];
    assert UpsertStatements(id, m, embedding, hash) ==
             [Upsert(id, m.vecRowid, m.row)] + (vectors + HashStatements(id, hash));
    assert [] + HashStatements(id, hash) == HashStatements(id, hash);
    hide Exec, VectorStatements, HashStatements, UpsertStatements;
    ExecAllCons(db, Upsert(id, m.vecRowid, m.row), vectors + HashStatements(id, hash));
  }

  /** Field by field: the target row gets what the upsert says, but keeps when it was first
      scraped; any other row is changed at most by being marked as embedded and hashed. */
  lemma UpsertRows(db: Db, id: string, m: Meta, embedding: Blob, hash: string)
    requires ExecAll(db, UpsertStatements(id, m, embedding, hash)).Some?
    ensures var t, stores := Target(db, id, m.row.url), StoresVector(m, embedding);
            var e := ExecAll(db, UpsertStatements(id, m, embedding, hash)).value;
            && t in e.articles
            && (var a := e.articles[t];
                && a.text == m.row.text && a.metadata == m.row.metadata && a.updatedAt == m.row.updatedAt
                && a.url == m.row.url && Some(a.vecRowid) == m.vecRowid && a.status == m.row.status
                && a.contentHash == (if hash != "" && t == id then hash
                                     else if t in db.articles then db.articles[t].contentHash else "")
                && a.scrapedAt == (if t in db.articles then db.articles[t].scrapedAt else m.row.scrapedAt))
            && (forall k :: k in e.articles ==> k == t || k in db.articles)
            && (forall k :: k in db.articles && k != t ==>
                  k in e.articles && OtherRow(db.articles[k], e.articles[k], k == id, stores, hash))
  {
    hide ExecAll, UpsertStatements, UrlOwner, VecWritten, VecHashed, Target;
    UpsertWrites(db, id, m, embedding, hash);
    OwnerHasUrl(db, id, m.row.url);
  }

  /** Another row before and after an upsert; it may be that of the id. */
  predicate OtherRow(before: Article, after: Article, isId: bool, stores: bool, hash: string) {
    && after.vecRowid == before.vecRowid && after.url == before.url && after.text == before.text
    && after.metadata == before.metadata && after.scrapedAt == before.scrapedAt && after.updatedAt == before.updatedAt
    && after.status == (if isId && stores then EMBEDDED else before.status)
    && after.contentHash == (if isId && hash != "" then hash else before.contentHash)
  }

  lemma OwnerHasUrl(db: Db, id: string, url: string)
    requires UrlOwner(db.articles, url).None? ==> id !in db.articles
    ensures Target(db, id, url) in db.articles ==> db.articles[Target(db, id, url)].url == url
  {
  }

  /** A rowid no other article has can only carry the vector of the target row itself. */
  lemma NewRowidHasNoVector(db: Db, t: string, rowid: int)
    requires Inv(db) && !TakenByOther(db.articles, rowid, t)
    ensures rowid in db.vec ==> t in db.articles && db.articles[t].vecRowid == rowid
    ensures rowid !in VecWithout(db, t)
  {
    if rowid in db.vec {
      var k :| k in db.articles && db.articles[k].vecRowid == rowid;
    }
  }

  /** The backup row needs its article. */
  lemma NoSuchArticleFails(d: Db, id: string, rowid: int, embedding: Blob, at: string, rest: seq<Stmt>)
    requires id !in d.articles
    ensures ExecAll(d, VectorStatements(id, rowid, embedding, at) + rest).None?
  {
    var backup := Backup(id, embedding, at);
    var d1 := d.(vec := d.vec - {rowid});
    var d2 := d.(vec := d1.vec[rowid := embedding]);
    var rest3 := [PutBackup(rowid, backup)] + rest;
    var rest2 := [SetEmbedded(id)] + rest3;
    var rest1 := [InsertVec(rowid, embedding)] + rest2;
    assert VectorStatements(id, rowid, embedding, at) + rest == [DeleteVec(rowid)] + rest1;
    ExecAllCons(d, DeleteVec(rowid), rest1);
    ExecAllCons(d1, InsertVec(rowid, embedding), rest2);
    ExecAllCons(d2, SetEmbedded(id), rest3);
    ExecAllCons(d2, PutBackup(rowid, backup), rest);
  }

  // ---------------------------------------------------------------------------------
  // The invariant over any run of the store
  // ---------------------------------------------------------------------------------

  /** The vectors after a committed upsert to a rowid that no other article has. */
  ghost function VecAfter(db: Db, t: string, rowid: int, m: Meta, embedding: Blob): map<int, Blob> {
    if StoresVector(m, embedding) then VecWithout(db, t)[rowid := embedding]
    else if m.row.status == PENDING then VecWithout(db, t)
    else if t in db.articles && db.articles[t].vecRowid == rowid then db.vec
    else VecWithout(db, t)
  }

  /** A committed upsert to such a rowid changes exactly the vectors its status calls for:
      the hash statement finds nothing more to remove. */
  lemma UpsertEffect(db: Db, id: string, m: Meta, embedding: Blob, hash: string)
    requires Inv(db) && ExecAll(db, UpsertStatements(id, m, embedding, hash)).Some?
    requires m.vecRowid.Some? ==> !TakenByOther(db.articles, m.vecRowid.value, Target(db, id, m.row.url))
    ensures m.vecRowid.Some?
    ensures var t, rowid := Target(db, id, m.row.url), m.vecRowid.value;
            var e := ExecAll(db, UpsertStatements(id, m, embedding, hash)).value;
            && e.articles == Touched(db.articles[t := RowAfter(db, t, rowid, m.row)], id, StoresVector(m, embedding),
                                     hash)
            && e.vec == VecAfter(db, t, rowid, m, embedding)
  {
    hide ExecAll, UpsertStatements, UrlOwner, Touched, Target, TakenByOther;
    UpsertWrites(db, id, m, embedding, hash);
    var t, rowid := Target(db, id, m.row.url), m.vecRowid.value;
    NewRowidHasNoVector(db, t, rowid);
    var written := db.(articles := db.articles[t := RowAfter(db, t, rowid, m.row)],
                       vec := VecWritten(db, t, rowid, m.row.status));
    if StoresVector(m, embedding) {
      assert written.vec[rowid := embedding] == VecAfter(db, t, rowid, m, embedding);
    } else {
      NothingToRemove(db, t, rowid, m, id, hash);
    }
  }

  lemma NothingToRemove(db: Db, t: string, rowid: int, m: Meta, id: string, hash: string)
    requires VecOk(db) && rowid !in VecWithout(db, t) &&
               (rowid in db.vec ==> t in db.articles && db.articles[t].vecRowid == rowid)
    ensures var written := db.(articles := db.articles[t := RowAfter(db, t, rowid, m.row)],
                               vec := VecWritten(db, t, rowid, m.row.status));
            && (forall k :: k in written.articles && written.articles[k].status == PENDING ==>
                  written.articles[k].vecRowid !in written.vec)
            && VecHashed(written, id, hash) == written.vec
  {
    var written := db.(articles := db.articles[t := RowAfter(db, t, rowid, m.row)],
                       vec := VecWritten(db, t, rowid, m.row.status));
    forall k | k in written.articles && written.articles[k].status == PENDING
      ensures written.articles[k].vecRowid !in written.vec
    {
      if k != t { assert db.articles[k].vecRowid !in db.vec; }
    }
  }

  /** The condition a caller could check beforehand: the rowid belongs to no other article
      than the target; a row is marked EMBEDDED without bytes only if it exists under that
      rowid and has a vector; and a vector is stored for a target other than the id only if
      the article of the id, which is marked EMBEDDED as well, has a vector already. */
  ghost predicate Admissible(db: Db, id: string, m: Meta, embedding: Blob) {
    m.vecRowid.Some? ==>
      var t, rowid := Target(db, id, m.row.url), m.vecRowid.value;
      && !TakenByOther(db.articles, rowid, t)
      && (m.row.status == EMBEDDED && embedding == [] ==>
            t in db.articles && db.articles[t].vecRowid == rowid && rowid in db.vec)
      && (StoresVector(m, embedding) && t != id ==> id in db.articles && db.articles[id].vecRowid in db.vec)
  }

  /** A committed upsert keeps the invariant exactly if it was admissible. */
  lemma UpsertKeepsInvIff(db: Db, id: string, m: Meta, embedding: Blob, hash: string)
    requires Inv(db) && ExecAll(db, UpsertStatements(id, m, embedding, hash)).Some?
    ensures Inv(ExecAll(db, UpsertStatements(id, m, embedding, hash)).value) <==> Admissible(db, id, m, embedding)
  {
    UpsertWrites(db, id, m, embedding, hash);
    var t, rowid := Target(db, id, m.row.url), m.vecRowid.value;
    var e := ExecAll(db, UpsertStatements(id, m, embedding, hash)).value;
    TransactionKeepsFts(db, UpsertStatements(id, m, embedding, hash));
    if TakenByOther(db.articles, rowid, t) {
      SharedRowid(db.articles, id, t, RowAfter(db, t, rowid, m.row), StoresVector(m, embedding), hash);
    } else {
      UpsertEffect(db, id, m, embedding, hash);
      TargetIsFree(db, id, m);
      NewRowidHasNoVector(db, t, rowid);
      hide *;
      PlacedIff(db, id, t, rowid, m, embedding, hash, e);
    }
  }

  /** The target is the row of the url, or a new row for a url nobody has. */
  predicate IsTarget(articles: map<string, Article>, t: string, url: string) {
    if t in articles then articles[t].url == url else forall k :: k in articles ==> articles[k].url != url
  }

  lemma TargetIsFree(db: Db, id: string, m: Meta)
    requires UrlOwner(db.articles, m.row.url).None? ==> id !in db.articles
    ensures IsTarget(db.articles, Target(db, id, m.row.url), m.row.url)
    ensures Target(db, id, m.row.url) != id ==> Target(db, id, m.row.url) in db.articles
  {
    if UrlOwner(db.articles, m.row.url).None? {
      forall k | k in db.articles ensures db.articles[k].url != m.row.url {
        assert !OwnsUrl(db.articles, k, m.row.url);
      }
    }
  }

  /** A rowid taken over from another article is in the table twice afterwards. */
  lemma SharedRowid(articles: map<string, Article>, id: string, t: string, a: Article, stores: bool, hash: string)
    requires TakenByOther(articles, a.vecRowid, t)
    ensures !RowidsUnique(Touched(articles[t := a], id, stores, hash))
  {
    var k :| k in articles && articles[k].vecRowid == a.vecRowid && k != t;
    var e := Touched(articles[t := a], id, stores, hash);
    assert k in e && t in e && e[k].vecRowid == e[t].vecRowid;
  }

  /** The later statements change neither url nor rowid, and the status of at most one row. */
  lemma TouchedKeeps(articles: map<string, Article>, id: string, stores: bool, hash: string)
    ensures var e := Touched(articles, id, stores, hash);
            && e.Keys == articles.Keys
            && forall k :: k in articles ==>
                 && e[k].url == articles[k].url && e[k].vecRowid == articles[k].vecRowid
                 && e[k].status == if stores && k == id then EMBEDDED else articles[k].status
  {
  }

  /** What a row keeps through an upsert that goes to a rowid of its own. */
  ghost predicate Placed(db: Db, id: string, t: string, rowid: int, m: Meta, embedding: Blob,
                         articles: map<string, Article>) {
    var stores := StoresVector(m, embedding);
    && articles.Keys == db.articles.Keys + {t}
    && articles[t].url == m.row.url && articles[t].vecRowid == rowid
    && articles[t].status == (if stores && t == id then EMBEDDED else m.row.status)
    && forall k :: k in db.articles && k != t ==>
         && articles[k].url == db.articles[k].url && articles[k].vecRowid == db.articles[k].vecRowid
         && articles[k].status == if stores && k == id then EMBEDDED else db.articles[k].status
  }

  lemma WrittenIsPlaced(db: Db, id: string, t: string, rowid: int, m: Meta, embedding: Blob, hash: string)
    requires IsTarget(db.articles, t, m.row.url)
    ensures Placed(db, id, t, rowid, m, embedding,
                   Touched(db.articles[t := RowAfter(db, t, rowid, m.row)], id, StoresVector(m, embedding), hash))
  {
    TouchedKeeps(db.articles[t := RowAfter(db, t, rowid, m.row)], id, StoresVector(m, embedding), hash);
    hide Touched;
  }

  lemma PlacedUnique(db: Db, id: string, t: string, rowid: int, m: Meta, embedding: Blob,
                     articles: map<string, Article>)
    requires UrlsUnique(db.articles) && RowidsUnique(db.articles) && IsTarget(db.articles, t, m.row.url)
    requires !TakenByOther(db.articles, rowid, t) && Placed(db, id, t, rowid, m, embedding, articles)
    ensures UrlsUnique(articles) && RowidsUnique(articles)
  {
    forall j | j in db.articles && j != t ensures db.articles[j].url != m.row.url && db.articles[j].vecRowid != rowid {
    }
    hide UrlsUnique, RowidsUnique, IsTarget, TakenByOther, StoresVector;
    UrlsStayUnique(db.articles, articles, t);
    RowidsStayUnique(db.articles, articles, t);
  }

  lemma UrlsStayUnique(before: map<string, Article>, after: map<string, Article>, t: string)
    requires UrlsUnique(before) && after.Keys == before.Keys + {t}
    requires forall k :: k in before && k != t ==> after[k].url == before[k].url && before[k].url != after[t].url
    ensures UrlsUnique(after)
  {
  }

  lemma RowidsStayUnique(before: map<string, Article>, after: map<string, Article>, t: string)
    requires RowidsUnique(before) && after.Keys == before.Keys + {t}
    requires forall k :: k in before && k != t ==>
               after[k].vecRowid == before[k].vecRowid && before[k].vecRowid != after[t].vecRowid
    ensures RowidsUnique(after)
  {
  }

  /** The vector of another article is where it was. */
  lemma OthersVector(db: Db, t: string, rowid: int, m: Meta, embedding: Blob, k: string)
    requires RowidsUnique(db.articles) && !TakenByOther(db.articles, rowid, t) && k in db.articles && k != t
    ensures var r := db.articles[k].vecRowid;
            && r != rowid
            && (r in VecAfter(db, t, rowid, m, embedding) <==> r in db.vec)
            && (r in db.vec ==> VecAfter(db, t, rowid, m, embedding)[r] == db.vec[r])
  {
  }

  /** The vector of the target itself. */
  lemma TargetsVector(db: Db, t: string, rowid: int, m: Meta, embedding: Blob)
    requires rowid !in VecWithout(db, t)
    ensures var vec := VecAfter(db, t, rowid, m, embedding);
            && (StoresVector(m, embedding) ==> rowid in vec && vec[rowid] == embedding)
            && (!StoresVector(m, embedding) ==>
                  (rowid in vec <==>
                   m.row.status != PENDING && t in db.articles && db.articles[t].vecRowid == rowid && rowid in db.vec)
                  && (rowid in vec ==> vec[rowid] == db.vec[rowid]))
  {
  }

  lemma PlacedHasRowids(db: Db, id: string, t: string, rowid: int, m: Meta, embedding: Blob,
                        articles: map<string, Article>)
    requires VecOk(db) && Placed(db, id, t, rowid, m, embedding, articles)
    ensures forall r :: r in VecAfter(db, t, rowid, m, embedding) ==> HasRowid(articles, r)
  {
    forall r | r in VecAfter(db, t, rowid, m, embedding) ensures HasRowid(articles, r) {
      if r == rowid {
        assert articles[t].vecRowid == r;
      } else {
        assert HasRowid(db.articles, r);
        var k :| k in db.articles && db.articles[k].vecRowid == r;
        assert k != t ==> articles[k].vecRowid == r;
      }
    }
  }

  /** At a rowid of its own the vectors stay right exactly under the two remaining parts of
      the condition. */
  lemma PlacedVectorsIff(db: Db, id: string, t: string, rowid: int, m: Meta, embedding: Blob, e: Db)
    requires Inv(db) && !TakenByOther(db.articles, rowid, t) && rowid !in VecWithout(db, t)
    requires Placed(db, id, t, rowid, m, embedding, e.articles) && e.vec == VecAfter(db, t, rowid, m, embedding)
    requires StoresVector(m, embedding) ==> id in e.articles
    requires m.vecRowid == Some(rowid)
    ensures VecOk(e) <==>
            && (m.row.status == EMBEDDED && embedding == [] ==>
                t in db.articles && db.articles[t].vecRowid == rowid && rowid in db.vec)
            && (StoresVector(m, embedding) && t != id ==> id in db.articles && db.articles[id].vecRowid in db.vec)
  {
    PlacedHasRowids(db, id, t, rowid, m, embedding, e.articles);
    TargetsVector(db, t, rowid, m, embedding);
    assert t in e.articles;
    forall k | k in db.articles && k != t
      ensures k in e.articles && (e.articles[k].vecRowid in e.vec <==> db.articles[k].vecRowid in db.vec)
    {
      OthersVector(db, t, rowid, m, embedding, k);
    }
    hide VecAfter, HasRowid, TakenByOther, VecWithout, FtsOk, UrlsUnique, RowidsUnique, BackupOk;
    OthersVectorsOk(db, id, t, rowid, m, embedding, e);
    assert e.articles[t].status == EMBEDDED <==> m.row.status == EMBEDDED;
  }

  /** The rows other than the target: only the one with the id can have become wrong. */
  lemma OthersVectorsOk(db: Db, id: string, t: string, rowid: int, m: Meta, embedding: Blob, e: Db)
    requires VecOk(db) && Placed(db, id, t, rowid, m, embedding, e.articles)
    requires forall k :: k in db.articles && k != t ==>
               (e.articles[k].vecRowid in e.vec <==> db.articles[k].vecRowid in db.vec)
    ensures (forall k :: k in db.articles && k != t && (k != id || !StoresVector(m, embedding)) ==> VectorFits(e, k))
    ensures id in db.articles && id != t && StoresVector(m, embedding) ==>
              (VectorFits(e, id) <==> db.articles[id].vecRowid in db.vec)
    ensures VecOk(e) <==>
              (forall r :: r in e.vec ==> HasRowid(e.articles, r)) && (forall k :: k in e.articles ==> VectorFits(e, k))
    ensures forall k :: k in e.articles ==> k == t || k in db.articles
  {
    hide HasRowid;
  }

  /** A pending article has no vector, an embedded one has one. */
  ghost predicate VectorFits(e: Db, k: string)
    requires k in e.articles
  {
    && (e.articles[k].status == PENDING ==> e.articles[k].vecRowid !in e.vec)
    && (e.articles[k].status == EMBEDDED ==> e.articles[k].vecRowid in e.vec)
  }

  lemma PlacedIff(db: Db, id: string, t: string, rowid: int, m: Meta, embedding: Blob, hash: string, e: Db)
    requires Inv(db) && FtsOk(e) && !TakenByOther(db.articles, rowid, t) && rowid !in VecWithout(db, t)
    requires IsTarget(db.articles, t, m.row.url) && m.vecRowid == Some(rowid) && t == Target(db, id, m.row.url)
    requires e.articles == Touched(db.articles[t := RowAfter(db, t, rowid, m.row)], id, StoresVector(m, embedding),
                                   hash)
    requires e.vec == VecAfter(db, t, rowid, m, embedding)
    requires StoresVector(m, embedding) ==> id in db.articles[t := RowAfter(db, t, rowid, m.row)]
    requires e.backup == if StoresVector(m, embedding)
                         then db.backup[rowid := Backup(id, embedding, m.row.updatedAt)]
                         else db.backup
    ensures Inv(e) <==> Admissible(db, id, m, embedding)
  {
    WrittenIsPlaced(db, id, t, rowid, m, embedding, hash);
    TouchedKeeps(db.articles[t := RowAfter(db, t, rowid, m.row)], id, StoresVector(m, embedding), hash);
    PlacedUnique(db, id, t, rowid, m, embedding, e.articles);
    PlacedVectorsIff(db, id, t, rowid, m, embedding, e);
    BackupsPlaced(db, e, id, t, rowid, embedding, m.row.updatedAt);
    hide Placed, Touched, RowAfter, VecAfter, FtsOk, UrlsUnique, RowidsUnique, VecOk, BackupOk, TakenByOther, UrlOwner;
  }

  lemma BackupsPlaced(db: Db, e: Db, id: string, t: string, rowid: int, embedding: Blob, at: string)
    requires BackupOk(db) && e.articles.Keys == db.articles.Keys + {t}
    requires e.backup == db.backup || (id in e.articles && e.backup == db.backup[rowid := Backup(id, embedding, at)])
    ensures BackupOk(e)
  {
  }

  lemma DeleteKeepsInv(db: Db, id: string)
    requires Inv(db)
    ensures ExecAll(db, [DeleteArticle(id)]).Some? && Inv(ExecAll(db, [DeleteArticle(id)]).value)
    ensures id !in ExecAll(db, [DeleteArticle(id)]).value.articles
  {
    DeleteRuns(db, id);
    hide ExecAll, FtsOk, VecOk, BackupOk, UrlsUnique, RowidsUnique, DeleteRow;
    if id in db.articles {
      DeleteKeepsFts(db, id);
      DeleteKeepsVec(db, id);
      RowIsGone(db, id);
    }
  }

  lemma DeleteRuns(db: Db, id: string)
    ensures ExecAll(db, [DeleteArticle(id)]) == Some(if id in db.articles then DeleteRow(db, id) else db)
  {
    assert [DeleteArticle(id)] + [] == [DeleteArticle(id)];
    ExecAllCons(db, DeleteArticle(id), []);
    hide DeleteRow;
  }

  lemma RowIsGone(db: Db, id: string)
    requires id in db.articles
    ensures id !in DeleteRow(db, id).articles
  {
  }

  /** A delete takes away the article, its vector and its backups, and nothing else. */
  lemma DeleteEffect(db: Db, id: string)
    ensures ExecAll(db, [DeleteArticle(id)]).Some?
    ensures var e := ExecAll(db, [DeleteArticle(id)]).value;
            && (forall k :: k in e.articles <==> k in db.articles && k != id)
            && (forall k :: k in e.articles ==> e.articles[k] == db.articles[k])
            && (forall r :: r in e.vec <==> r in db.vec && !(id in db.articles && r == db.articles[id].vecRowid))
            && (forall r :: r in e.vec ==> e.vec[r] == db.vec[r])
            && (forall r :: r in e.backup <==> r in db.backup && !(id in db.articles && db.backup[r].articleId == id))
            && (forall r :: r in e.backup ==> e.backup[r] == db.backup[r])
  {
    DeleteRuns(db, id);
    hide ExecAll;
  }

  lemma DeleteKeepsVec(db: Db, id: string)
    requires VecOk(db) && BackupOk(db) && UrlsUnique(db.articles) && RowidsUnique(db.articles) && id in db.articles
    ensures var e := DeleteRow(db, id);
            VecOk(e) && BackupOk(e) && UrlsUnique(e.articles) && RowidsUnique(e.articles)
  {
    var e := DeleteRow(db, id);
    forall r | r in e.vec ensures HasRowid(e.articles, r) {
      assert HasRowid(db.articles, r);
      var k :| k in db.articles && db.articles[k].vecRowid == r;
      assert k in e.articles && e.articles[k].vecRowid == r;
    }
  }

  // ---------------------------------------------------------------------------------
  // When an upsert with a vector commits, and where it goes wrong
  // ---------------------------------------------------------------------------------

  /** An upsert commits exactly when it has a rowid, its id is not that of an article while
      its url is new, and, if it stores a vector, its id is that of an article whenever its
      url is known: a known url under a new id then fails on the backup's foreign key. */
  lemma UpsertCommitsIff(db: Db, id: string, m: Meta, embedding: Blob, hash: string)
    ensures ExecAll(db, UpsertStatements(id, m, embedding, hash)).Some?
       <==> && m.vecRowid.Some?
            && (UrlOwner(db.articles, m.row.url).None? ==> id !in db.articles)
            && (StoresVector(m, embedding) && UrlOwner(db.articles, m.row.url).Some? ==> id in db.articles)
  {
    UpsertSplit(db, id, m, embedding, hash);
    var first := Exec(db, Upsert(id, m.vecRowid, m.row));
    if first.Some? {
      UpsertFirst(db, id, m);
      var d := first.value;
      hide Exec, ExecAll;
      if StoresVector(m, embedding) {
        var rowid, at := m.vecRowid.value, m.row.updatedAt;
        if id in d.articles {
          VectorRun(d, id, rowid, embedding, at, HashStatements(id, hash));
          HashRun(WithVector(d, id, rowid, embedding, at), id, hash);
        } else {
          NoSuchArticleFails(d, id, rowid, embedding, at, HashStatements(id, hash));
        }
      } else {
        HashRun(d, id, hash);
      }
    }
  }

  /** An upsert that stores a vector commits exactly when the url and the id are both known
      or both new. */
  lemma VectorUpsertCommitsIff(db: Db, id: string, m: Meta, embedding: Blob, hash: string)
    requires StoresVector(m, embedding)
    ensures ExecAll(db, UpsertStatements(id, m, embedding, hash)).Some?
       <==> (UrlOwner(db.articles, m.row.url).Some? <==> id in db.articles)
  {
    UpsertCommitsIff(db, id, m, embedding, hash);
  }

  /** A failing family: the url belongs to one article and the id to another, pending one.
      The upsert commits, and the pending article is marked EMBEDDED without a vector. */
  lemma MisdirectedUpsertBreaksInv(db: Db, id: string, owner: string, m: Meta, embedding: Blob, hash: string)
    requires Inv(db) && StoresVector(m, embedding)
    requires UrlOwner(db.articles, m.row.url) == Some(owner) && owner != id
    requires id in db.articles && db.articles[id].status == PENDING
    ensures ExecAll(db, UpsertStatements(id, m, embedding, hash)).Some?
    ensures !Inv(ExecAll(db, UpsertStatements(id, m, embedding, hash)).value)
  {
    UpsertCommitsIff(db, id, m, embedding, hash);
    UpsertKeepsInvIff(db, id, m, embedding, hash);
    assert db.articles[id].vecRowid !in db.vec;
    hide ExecAll, UrlOwner;
  }

  /** Another one: a new article marked EMBEDDED for which no bytes came. */
  lemma EmbeddedWithoutBytesBreaksInv(db: Db, id: string, m: Meta, hash: string)
    requires Inv(db) && m.vecRowid.Some? && m.row.status == EMBEDDED
    requires UrlOwner(db.articles, m.row.url).None? && id !in db.articles
    ensures ExecAll(db, UpsertStatements(id, m, [], hash)).Some?
    ensures !Inv(ExecAll(db, UpsertStatements(id, m, [], hash)).value)
  {
    UpsertCommitsIff(db, id, m, [], hash);
    UpsertKeepsInvIff(db, id, m, [], hash);
    hide ExecAll, UrlOwner;
  }

  // ---------------------------------------------------------------------------------
  // Runs of the store
  // ---------------------------------------------------------------------------------

  datatype Op = Put(id: string, meta: Meta, embedding: Blob, hash: string) | Remove(id: string)

  function StatementsOf(op: Op): seq<Stmt> {
    match op
    case Put(id, m, embedding, hash) => UpsertStatements(id, m, embedding, hash)
    case Remove(id) => [DeleteArticle(id)]
  }

  /** A transaction that fails, by itself or because the engine gives up, changes nothing. */
  ghost function After(db: Db, op: Op, engineFails: bool): Db {
    var r := ExecAll(db, StatementsOf(op));
    if engineFails || r.None? then db else r.value
  }

  ghost function Run(db: Db, ops: seq<(Op, bool)>): Db
    decreases |ops|
  {
    if ops == [] then db else Run(After(db, ops[0].0, ops[0].1), ops[1..])
  }

  /** The operation commits. */
  ghost predicate Commits(db: Db, op: Op, engineFails: bool) {
    !engineFails && ExecAll(db, StatementsOf(op)).Some?
  }

  /** Every upsert of the run that commits is admissible when its turn comes. */
  ghost predicate RunAdmissible(db: Db, ops: seq<(Op, bool)>)
    decreases |ops|
  {
    ops == []
    || ((ops[0].0.Put? && Commits(db, ops[0].0, ops[0].1) ==>
         Admissible(db, ops[0].0.id, ops[0].0.meta, ops[0].0.embedding))
        && RunAdmissible(After(db, ops[0].0, ops[0].1), ops[1..]))
  }

  /** The invariant holds at every moment of the run. */
  ghost predicate AlwaysInv(db: Db, ops: seq<(Op, bool)>)
    decreases |ops|
  {
    Inv(db) && (ops == [] || AlwaysInv(After(db, ops[0].0, ops[0].1), ops[1..]))
  }

  lemma StepKeepsInvIff(db: Db, op: Op, engineFails: bool)
    requires Inv(db)
    ensures Inv(After(db, op, engineFails)) <==>
            (op.Put? && Commits(db, op, engineFails) ==> Admissible(db, op.id, op.meta, op.embedding))
  {
    hide Inv, Admissible;
    if Commits(db, op, engineFails) {
      match op
      case Put(id, m, embedding, hash) => UpsertKeepsInvIff(db, id, m, embedding, hash);
      case Remove(id) => DeleteKeepsInv(db, id);
    }
  }

  /** Over any sequence of upserts and deletes, committed or failed, the invariant holds all
      the time exactly if every upsert that committed was admissible. */
  lemma {:induction false} AlwaysInvIff(db: Db, ops: seq<(Op, bool)>)
    requires Inv(db)
    ensures AlwaysInv(db, ops) <==> RunAdmissible(db, ops)
    decreases |ops|
  {
    hide Inv, Admissible, After, Commits;
    if ops != [] {
      StepKeepsInvIff(db, ops[0].0, ops[0].1);
      if Inv(After(db, ops[0].0, ops[0].1)) {
        AlwaysInvIff(After(db, ops[0].0, ops[0].1), ops[1..]);
      }
    }
  }

  lemma {:induction false} RunKeepsInv(db: Db, ops: seq<(Op, bool)>)
    requires Inv(db) && RunAdmissible(db, ops)
    ensures Inv(Run(db, ops))
    decreases |ops|
  {
    hide Inv, Admissible, After, Commits;
    if ops != [] {
      StepKeepsInvIff(db, ops[0].0, ops[0].1);
      RunKeepsInv(After(db, ops[0].0, ops[0].1), ops[1..]);
    }
  }

  // ---------------------------------------------------------------------------------
  // Each vector is the latest one
  // ---------------------------------------------------------------------------------

  /** The last bytes stored for each article, as the operations of a run say. */
  ghost function Latest(latest: map<string, Blob>, db: Db, ops: seq<(Op, bool)>): map<string, Blob>
    decreases |ops|
  {
    if ops == [] then latest
    else Latest(LatestAfter(latest, db, ops[0].0, ops[0].1), After(db, ops[0].0, ops[0].1), ops[1..])
  }

  ghost function LatestAfter(latest: map<string, Blob>, db: Db, op: Op, engineFails: bool): map<string, Blob> {
    if Commits(db, op, engineFails) && op.Put? && StoresVector(op.meta, op.embedding)
    then latest[Target(db, op.id, op.meta.row.url) := op.embedding]
    else latest
  }

  /** Every article that has a vector has its latest one. */
  ghost predicate LatestOk(db: Db, latest: map<string, Blob>) {
    forall k :: k in db.articles && db.articles[k].vecRowid in db.vec ==>
        k in latest && db.vec[db.articles[k].vecRowid] == latest[k]
  }

  lemma UpsertKeepsLatest(db: Db, id: string, m: Meta, embedding: Blob, hash: string, latest: map<string, Blob>)
    requires Inv(db) && LatestOk(db, latest) && Admissible(db, id, m, embedding)
    requires ExecAll(db, UpsertStatements(id, m, embedding, hash)).Some?
    ensures LatestOk(ExecAll(db, UpsertStatements(id, m, embedding, hash)).value,
                     if StoresVector(m, embedding) then latest[Target(db, id, m.row.url) := embedding] else latest)
  {
    UpsertWrites(db, id, m, embedding, hash);
    UpsertEffect(db, id, m, embedding, hash);
    TargetIsFree(db, id, m);
    var t, rowid := Target(db, id, m.row.url), m.vecRowid.value;
    NewRowidHasNoVector(db, t, rowid);
    WrittenIsPlaced(db, id, t, rowid, m, embedding, hash);
    PlacedLatest(db, id, t, rowid, m, embedding, ExecAll(db, UpsertStatements(id, m, embedding, hash)).value, latest);
    hide *;
  }

  lemma PlacedLatest(db: Db, id: string, t: string, rowid: int, m: Meta, embedding: Blob, e: Db,
                     latest: map<string, Blob>)
    requires RowidsUnique(db.articles) && LatestOk(db, latest) && !TakenByOther(db.articles, rowid, t) &&
               rowid !in VecWithout(db, t)
    requires Placed(db, id, t, rowid, m, embedding, e.articles) && e.vec == VecAfter(db, t, rowid, m, embedding)
    ensures LatestOk(e, if StoresVector(m, embedding) then latest[t := embedding] else latest)
  {
    TargetsVector(db, t, rowid, m, embedding);
    forall k | k in db.articles && k != t
      ensures e.articles[k].vecRowid in e.vec ==>
                db.articles[k].vecRowid in db.vec && e.vec[e.articles[k].vecRowid] == db.vec[db.articles[k].vecRowid]
    {
      OthersVector(db, t, rowid, m, embedding, k);
    }
    hide VecAfter, TakenByOther, VecWithout, RowidsUnique;
  }

  lemma DeleteKeepsLatest(db: Db, id: string, latest: map<string, Blob>)
    requires LatestOk(db, latest)
    ensures ExecAll(db, [DeleteArticle(id)]).Some? && LatestOk(ExecAll(db, [DeleteArticle(id)]).value, latest)
  {
    DeleteRuns(db, id);
    hide ExecAll;
  }

  /** After any run whose committed upserts are admissible every article marked EMBEDDED has
      a vector, and it is the one last stored for it; pending articles have none. */
  lemma {:induction false} RunKeepsLatest(db: Db, ops: seq<(Op, bool)>, latest: map<string, Blob>)
    requires Inv(db) && RunAdmissible(db, ops) && LatestOk(db, latest)
    ensures LatestOk(Run(db, ops), Latest(latest, db, ops))
    decreases |ops|
  {
    hide Inv, Admissible, LatestOk;
    if ops != [] {
      var (op, fails) := ops[0];
      StepKeepsInvIff(db, op, fails);
      if Commits(db, op, fails) {
        match op {
          case Put(id, m, embedding, hash) => UpsertKeepsLatest(db, id, m, embedding, hash, latest);
          case Remove(id) => DeleteKeepsLatest(db, id, latest);
        }
      }
      RunKeepsLatest(After(db, op, fails), ops[1..], LatestAfter(latest, db, op, fails));
    }
  }

  lemma EmbeddedHaveTheirLatestVector(db: Db, ops: seq<(Op, bool)>, latest: map<string, Blob>, k: string)
    requires Inv(db) && RunAdmissible(db, ops) && LatestOk(db, latest)
    requires k in Run(db, ops).articles && Run(db, ops).articles[k].status == EMBEDDED
    ensures var e, last := Run(db, ops), Latest(latest, db, ops);
            e.articles[k].vecRowid in e.vec && k in last && e.vec[e.articles[k].vecRowid] == last[k]
  {
    RunKeepsInv(db, ops);
    RunKeepsLatest(db, ops, latest);
    hide Run, Latest, RunAdmissible;
  }
}
