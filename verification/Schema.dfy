/**
 Column lists and the comparison of a table with its declared schema
 (`database/management/schema_introspector.py`).  Column names are in lower case, as every
 comparison lowers them first.
 */
module Schema {
  import opened Options
  import opened PyText

  /** A row of PRAGMA table_info: pk is 0 or the position in the primary key. */
  datatype Column = Column(name: string, type_: string, notNull: bool, default: Option<string>, pk: nat)

  datatype Affinity = INTEGER | TEXT | BLOB | REAL | NUMERIC

  predicate Contains(text: string, part: string) {
    exists i :: 0 <= i <= |text| && StartsWithAt(text, i, part)
  }

  function UpperChar(c: char): char {
    if 'a' <= c <= 'z' then (c as int - 32) as char else c
  }

  function Upper(s: string): string {
    seq(|s|, i requires 0 <= i < |s| => UpperChar(s[i]))
  }

  /** `_normalize_type_affinity`. */
  function NormalizeTypeAffinity(declared: string): Affinity {
    var t := Upper(declared);
    if Contains(t, "INT") then INTEGER
    else if Contains(t, "CHAR") || Contains(t, "CLOB") || Contains(t, "TEXT") then TEXT
    else if Contains(t, "BLOB") || t == "" then BLOB
    else if Contains(t, "REAL") || Contains(t, "FLOA") || Contains(t, "DOUB") then REAL
    else NUMERIC
  }

  /** One of the parts occurs in the type, in whatever case it is written. */
  ghost predicate Mentions(declared: string, parts: set<string>) {
    exists p :: p in parts && Contains(Upper(declared), p)
  }

  /** The rules of column affinity: the first that applies decides. */
  lemma AffinityIff(declared: string)
    ensures var a := NormalizeTypeAffinity(declared);
            && (a == INTEGER <==> Mentions(declared, {"INT"}))
            && (a == TEXT <==> a != INTEGER && Mentions(declared, {"CHAR", "CLOB", "TEXT"}))
            && (a == BLOB <==> a !in {INTEGER, TEXT} && (declared == "" || Mentions(declared, {"BLOB"})))
            && (a == REAL <==> a !in {INTEGER, TEXT, BLOB} && Mentions(declared, {"REAL", "FLOA", "DOUB"}))
  {
    hide Contains;
  }

  /** Upper case letter by letter. */
  lemma UpperIs(s: string, i: nat)
    requires i < |s|
    ensures |Upper(s)| == |s|
    ensures var c, u := s[i] as int, Upper(s)[i] as int; u == if 97 <= c <= 122 then c - 32 else c
  {
  }

  lemma AffinityOfPlainTypes()
    ensures NormalizeTypeAffinity("") == BLOB && NormalizeTypeAffinity("TEXT") == TEXT
  {
    assert Upper("") == "";
    var t := Upper("TEXT");
    assert t == "TEXT";
    forall i | 0 <= i <= |t| ensures !StartsWithAt(t, i, "INT") {
      MatchShows(t, i, "INT");
    }
    assert t[0..4] == "TEXT" && StartsWithAt(t, 0, "TEXT");
  }

  function Names(cols: seq<Column>): (names: set<string>)
    ensures forall k :: 0 <= k < |cols| ==> cols[k].name in names
    ensures forall n :: n in names ==> exists k :: 0 <= k < |cols| && cols[k].name == n
  {
    set k | 0 <= k < |cols| :: cols[k].name
  }

  /** Column names of one table are distinct. */
  predicate Distinct(cols: seq<Column>) {
    forall i, j :: 0 <= i < j < |cols| ==> cols[i].name != cols[j].name
  }

  /** The column of that name. */
  function Find(cols: seq<Column>, name: string): (c: Column)
    requires name in Names(cols)
    ensures c.name == name && c in cols
    ensures Distinct(cols) ==> forall k :: 0 <= k < |cols| && cols[k].name == name ==> cols[k] == c
  {
    if cols[0].name == name then cols[0]
    else
      assert name in Names(cols[1..]) by {
        var k :| 0 <= k < |cols| && cols[k].name == name;
        assert cols[1..][k - 1] == cols[k];
      }
      assert Distinct(cols) ==> forall k :: 0 < k < |cols| ==> cols[k] == cols[1..][k - 1];
      Find(cols[1..], name)
  }

  /** What two columns of the same name are compared on. */
  predicate SameShape(a: Column, d: Column) {
    NormalizeTypeAffinity(a.type_) == NormalizeTypeAffinity(d.type_) && a.notNull == d.notNull && a.pk == d.pk
  }

  /** The comparison at the end of `schema_matches`, for a table that exists, is not
      virtual, and whose declaration parses. */
  predicate ColumnsMatch(actual: seq<Column>, desired: seq<Column>) {
    && |actual| == |desired|
    && Names(actual) == Names(desired)
    && forall n :: n in Names(desired) ==> SameShape(Find(actual, n), Find(desired, n))
  }
}
