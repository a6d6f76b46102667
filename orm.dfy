/** The table mapper of xmlorm/orm.py: key descriptors, the validation and
    column injection a Table performs when it is built, its DDL text, its
    file name and tag path along the parent chain, and the reads that turn a
    parsed document into rows. */
module Orm {
  import opened Wrappers
  import opened Strings
  import opened Columns
  import opened Xml
  import opened Rows

  // ---------------------------------------------------------------------------
  // Key descriptors (xmlorm/orm.py:327-373)
  // ---------------------------------------------------------------------------

  datatype PrimaryKey = PrimaryKey(columnNames: seq<string>)

  /** `PrimaryKey.__repr__`: "primary key (a,b,...)". */
  function PrimaryKeySql(pk: PrimaryKey): (s: string)
    ensures |s| >= 14 && s[..13] == "primary key (" && s[|s| - 1] == ')'
  {
    "primary key (" + Join(pk.columnNames, ",") + ")"
  }

  /** Reads a rendered primary key back: the partner of PrimaryKeySql. */
  function ParsePrimaryKey(s: string): Option<PrimaryKey>
  {
    var head := "primary key (";
    if |s| < |head| + 1 || s[..|head|] != head || s[|s| - 1] != ')' then None
    else Some(PrimaryKey(Split(s[|head|..|s| - 1], ',')))
  }

  /** A primary key over at least one column, no name holding a comma, renders
      to text that determines it. */
  lemma PrimaryKeySqlRoundTrip(pk: PrimaryKey)
    requires |pk.columnNames| > 0
    requires forall i :: 0 <= i < |pk.columnNames| ==> ',' !in pk.columnNames[i]
    ensures ParsePrimaryKey(PrimaryKeySql(pk)) == Some(pk)
  {
    var head := "primary key (";
    var body := Join(pk.columnNames, ",");
    var s := PrimaryKeySql(pk);
    assert s == head + body + ")";
    assert s[..|head|] == head;
    assert s[|head|..|s| - 1] == body;
    SplitOfJoin(pk.columnNames, ',');
  }

  /** The non-empty condition of the round trip cannot be dropped: a key over
      no columns and a key over one empty name render to the same text. */
  lemma PrimaryKeyEmptyAmbiguous()
    ensures PrimaryKeySql(PrimaryKey([])) == PrimaryKeySql(PrimaryKey([""])) == "primary key ()"
  {
  }

  /** A foreign key: a column of this table referring to a column of `table`. */
  datatype ForeignKey = ForeignKey(name: string, table: Table, column: Column)

  /** `ForeignKey.__repr__`: "foreign key (n) references t (c)". */
  function ForeignKeySql(fk: ForeignKey): (s: string)
    ensures EndsWith(s, " (" + fk.column.name + ")")
  {
    var tail := " (" + fk.column.name + ")";
    var s := "foreign key (" + fk.name + ") references " + fk.table.name + tail;
    assert s[|s| - |tail|..] == tail;
    s
  }

  /** Reads back text of the form head + n + mid + t + open + c + ")", where
      `mid` starts with ')' and `open` ends with '(': the key's own name ends
      at the first ')' and the referenced column starts after the last '('.
      Gives (n, t, c). */
  function ParseReference(s: string, head: string, mid: string, open: string): (r: Option<(string, string, string)>)
    ensures r.Some? ==> s == head + r.value.0 + mid + r.value.1 + open + r.value.2 + ")"
  {
    match DropPrefix(s, head)
    case None => None
    case Some(afterHead) =>
      match CutAtFirst(afterHead, ')')
      case None => None
      case Some((n, fromMid)) =>
        match DropPrefix(fromMid, mid)
        case None => None
        case Some(afterMid) =>
          match CutAfterLast(afterMid, '(')
          case None => None
          case Some((tOpen, cClose)) =>
            match (DropSuffix(tOpen, open), DropSuffix(cClose, ")"))
            case (Some(t), Some(c)) =>
              Regroup(head, n, mid, t, open, c, ")");
              Some((n, t, c))
            case _ => None
  }

  /** Rendered references read back, as long as the key's name holds no ')'
      and the referenced column's name no '('. */
  lemma ParseReferenceOf(head: string, n: string, mid: string, t: string, open: string, c: string)
    requires |mid| > 0 && mid[0] == ')' && |open| > 0 && open[|open| - 1] == '('
    requires ')' !in n && '(' !in c
    ensures ParseReference(head + n + mid + t + open + c + ")", head, mid, open) == Some((n, t, c))
  {
    var tail := (t + open) + (c + ")");
    var s := head + (n + (mid + tail));
    Regroup(head, n, mid, t, open, c, ")");
    assert (t + open)[|t + open| - 1] == '(';
    assert '(' !in c + ")";
    DropPrefixOf(head, n + (mid + tail));
    CutAtFirstOf(n, mid + tail, ')');
    DropPrefixOf(mid, tail);
    CutAfterLastOf(t + open, c + ")", '(');
    DropSuffixOf(t, open);
    DropSuffixOf(c, ")");
  }

  /** Reads back `ForeignKey.__repr__`. */
  function ParseForeignKeySql(s: string): Option<(string, string, string)>
  {
    ParseReference(s, "foreign key (", ") references ", " (")
  }

  /** The rendering of a foreign key names its own column, the referenced
      table and the referenced column, and can be read back into them. */
  lemma ForeignKeySqlRoundTrip(fk: ForeignKey)
    requires ')' !in fk.name && '(' !in fk.column.name
    ensures ParseForeignKeySql(ForeignKeySql(fk)) == Some((fk.name, fk.table.name, fk.column.name))
  {
    var front := "foreign key (" + fk.name + ") references " + fk.table.name;
    ConcatAssoc(front, " (" + fk.column.name, ")");
    ConcatAssoc(front, " (", fk.column.name);
    ParseReferenceOf("foreign key (", fk.name, ") references ", fk.table.name, " (", fk.column.name);
  }

  datatype Index = Index(name: string, table: Table, columnNames: seq<string>, unique: bool)

  /** `Index.__repr__`: "create[ unique] index if not exists n on t (a, b);". */
  function IndexSql(ix: Index): (s: string)
    ensures EndsWith(s, ");")
    ensures ix.unique <==> |s| >= 14 && s[..14] == "create unique "
  {
    var s := "create" + (if ix.unique then " unique" else "") + " index if not exists " + ix.name
             + " on " + ix.table.name + " (" + Join(ix.columnNames, ", ") + ");";
    assert s[|s| - 2..] == ");";
    assert |s| >= 14;
    assert ix.unique ==> s[..14] == "create unique ";
    assert !ix.unique ==> s[7] == 'i';
    s
  }

  /** The keywords an index statement starts with. */
  function IndexHead(unique: bool): string
  {
    if unique then "create unique index if not exists " else "create index if not exists "
  }

  /** Reads the keywords back: whether the index is unique, and what follows them. */
  function ParseIndexHead(s: string): (r: Option<(bool, string)>)
    ensures r.Some? ==> s == IndexHead(r.value.0) + r.value.1
  {
    match DropPrefix(s, IndexHead(true))
    case Some(rest) => Some((true, rest))
    case None =>
      match DropPrefix(s, IndexHead(false))
      case Some(rest) => Some((false, rest))
      case None => None
  }

  /** Reads "n on t (a, b);" back into (n, t, [a, b]): the index name ends at
      the first space, the table name runs to the last '(' and the column
      list is split at its commas. */
  function ParseIndexBody(s: string): Option<(string, string, seq<string>)>
  {
    match CutAtFirst(s, ' ')
    case None => None
    case Some((name, fromOn)) =>
      match DropPrefix(fromOn, " on ")
      case None => None
      case Some(afterOn) =>
        match CutAfterLast(afterOn, '(')
        case None => None
        case Some((tOpen, listClose)) =>
          match (DropSuffix(tOpen, " ("), DropSuffix(listClose, ");"))
          case (Some(t), Some(list)) => Some((name, t, SplitList(list)))
          case _ => None
  }

  /** Reads an index statement back into (unique, name, table, column names). */
  function ParseIndexSql(s: string): Option<(bool, string, string, seq<string>)>
  {
    match ParseIndexHead(s)
    case None => None
    case Some((unique, rest)) =>
      match ParseIndexBody(rest)
      case None => None
      case Some((name, t, cols)) => Some((unique, name, t, cols))
  }

  lemma IndexHeadOf(unique: bool, rest: string)
    ensures ParseIndexHead(IndexHead(unique) + rest) == Some((unique, rest))
  {
    var s := IndexHead(unique) + rest;
    DropPrefixOf(IndexHead(unique), rest);
    if !unique {
      assert s[7] == 'i';
    }
  }

  lemma JoinWithout(parts: seq<string>, sep: string, c: char)
    requires c !in sep
    requires forall i :: 0 <= i < |parts| ==> c !in parts[i]
    ensures c !in Join(parts, sep)
  {
  }

  lemma IndexBodyOf(name: string, t: string, cols: seq<string>)
    requires ' ' !in name && |cols| > 0
    requires forall i :: 0 <= i < |cols| ==> ',' !in cols[i] && '(' !in cols[i]
    ensures ParseIndexBody(name + (" on " + ((t + " (") + (Join(cols, ", ") + ");")))) == Some((name, t, cols))
  {
    var list := Join(cols, ", ");
    var rest := " on " + ((t + " (") + (list + ");"));
    CutAtFirstOf(name, rest, ' ');
    DropPrefixOf(" on ", (t + " (") + (list + ");"));
    JoinWithout(cols, ", ", '(');
    assert '(' !in list + ");";
    assert (t + " (")[|t + " ("| - 1] == '(';
    CutAfterLastOf(t + " (", list + ");", '(');
    DropSuffixOf(t, " (");
    DropSuffixOf(list, ");");
    SplitListOfJoin(cols);
  }

  /** An index over at least one column, whose name holds no space and whose
      column names hold neither ',' nor '(', renders to text that can be read
      back into its uniqueness, name, table name and column names. */
  lemma IndexSqlRoundTrip(ix: Index)
    requires ' ' !in ix.name && |ix.columnNames| > 0
    requires forall i :: 0 <= i < |ix.columnNames| ==> ',' !in ix.columnNames[i] && '(' !in ix.columnNames[i]
    ensures ParseIndexSql(IndexSql(ix)) == Some((ix.unique, ix.name, ix.table.name, ix.columnNames))
  {
    var rest := " on " + ((ix.table.name + " (") + (Join(ix.columnNames, ", ") + ");"));
    IndexSqlSplit(ix);
    IndexHeadOf(ix.unique, ix.name + rest);
    IndexBodyOf(ix.name, ix.table.name, ix.columnNames);
  }

  /** An index statement is its keywords followed by its body. */
  lemma IndexSqlSplit(ix: Index)
    ensures IndexSql(ix) == IndexHead(ix.unique)
              + (ix.name + (" on " + ((ix.table.name + " (") + (Join(ix.columnNames, ", ") + ");"))))
  {
    var head := IndexHead(ix.unique);
    if ix.unique {
      assert "create" + " unique" + " index if not exists " == head;
    } else {
      assert "create" + "" + " index if not exists " == head;
    }
    Regroup(head, ix.name, " on ", ix.table.name, " (", Join(ix.columnNames, ", "), ");");
  }

  // ---------------------------------------------------------------------------
  // Construction of a table as values (xmlorm/orm.py:159-178, 209-237)
  // ---------------------------------------------------------------------------

  /** The AssertionError / KeyError a Table constructor can raise. */
  datatype ConfigError =
    | MissingTagName                // parent_table given, tag_name empty or None
    | HashKeyWithPrimaryKeyColumn   // hash_key given and a Column is a primary key
    | HashKeyWithPrimaryKey         // hash_key given and pkey given
    | ParentWithoutHashId           // the parent has no "hash_id" column (KeyError)

  /** `if x:` on an optional string. */
  predicate Given(x: Option<string>)
  {
    x.Some? && x.value != ""
  }

  /** The column `__enforce_hashkey` adds. */
  const HashIdColumn := NewColumn("hash_id", None, true, true)

  /** The column `__enforce_parent_hash` adds. */
  const ParentHashColumn := NewColumn("parent_hash", None, true, false)

  lemma HashIdColumnSql()
    ensures ColumnSql(HashIdColumn) == "hash_id text primary key not null"
  {
  }

  predicate AnyPrimaryKeyColumn(cols: ColumnDict)
  {
    exists k :: k in cols.entries && cols.entries[k].primaryKey
  }

  /** `__enforce_hashkey`: with a hash key and no primary-key `hash_id` column,
      no column may be a primary key and no PrimaryKey may be given; then a
      `hash_id` column is appended if there is none. */
  function HashKeyStep(cols: ColumnDict, pkey: Option<PrimaryKey>, hashKey: Option<seq<string>>): (r: Result<ColumnDict, ConfigError>)
    requires cols.WellFormed()
    ensures r.Failure? <==> IsSet(hashKey) && !cols.HasPrimaryKeyColumn("hash_id") && (AnyPrimaryKeyColumn(cols) || pkey.Some?)
    ensures r.Failure? ==> r.error == (if AnyPrimaryKeyColumn(cols) then HashKeyWithPrimaryKeyColumn else HashKeyWithPrimaryKey)
    ensures r.Success? ==> r.value.WellFormed()
    ensures r.Success? && IsSet(hashKey) ==> "hash_id" in r.value.entries
    ensures r.Success? ==> forall k :: k in cols.entries ==> k in r.value.entries && r.value.entries[k] == cols.entries[k]
    ensures r.Success? && IsSet(hashKey) && "hash_id" !in cols.entries ==>
              && r.value.order == cols.order + ["hash_id"]
              && r.value.entries == cols.entries["hash_id" := HashIdColumn]
              && ColumnSql(r.value.entries["hash_id"]) == "hash_id text primary key not null"
    ensures r.Success? && !(IsSet(hashKey) && "hash_id" !in cols.entries) ==> r.value == cols
  {
    HashIdColumnSql();
    if !IsSet(hashKey) || cols.HasPrimaryKeyColumn("hash_id") then Success(cols)
    else if AnyPrimaryKeyColumn(cols) then Failure(HashKeyWithPrimaryKeyColumn)
    else if pkey.Some? then Failure(HashKeyWithPrimaryKey)
    else if "hash_id" in cols.entries then Success(cols)
    else Success(cols.Put(HashIdColumn))
  }

  /** `__enforce_parent_hash`: a child table gets a not-null `parent_hash` column
      and one more foreign key, to the parent's `hash_id` column, unless it
      already has a primary-key `parent_hash` column. */
  function ParentHashStep(cols: ColumnDict, fks: seq<Option<ForeignKey>>, parent: Table?, parentHashId: Option<Column>)
    : (r: Result<(ColumnDict, seq<Option<ForeignKey>>), ConfigError>)
    requires cols.WellFormed()
    ensures r.Failure? <==> parent != null && !cols.HasPrimaryKeyColumn("parent_hash") && parentHashId.None?
    ensures r.Failure? ==> r.error == ParentWithoutHashId
    ensures r.Success? ==> r.value.0.WellFormed()
    ensures r.Success? && parent != null ==> "parent_hash" in r.value.0.entries
    ensures r.Success? && (parent == null || cols.HasPrimaryKeyColumn("parent_hash")) ==> r.value == (cols, fks)
    ensures r.Success? && parent != null && !cols.HasPrimaryKeyColumn("parent_hash") ==>
              && |r.value.1| == |fks| + 1
              && r.value.1[..|fks|] == fks
              && r.value.1[|fks|] == Some(ForeignKey("parent_hash", parent, parentHashId.value))
              && r.value.0.entries["parent_hash"] == ParentHashColumn
              && r.value.0.entries["parent_hash"].notNull
              && (forall k :: k in cols.entries && k != "parent_hash" ==>
                    k in r.value.0.entries && r.value.0.entries[k] == cols.entries[k])
              && r.value.0.entries == cols.entries["parent_hash" := ParentHashColumn]
              && r.value.0.order == (if "parent_hash" in cols.entries then cols.order else cols.order + ["parent_hash"])
  {
    if parent == null || cols.HasPrimaryKeyColumn("parent_hash") then Success((cols, fks))
    else
      match parentHashId
      case None => Failure(ParentWithoutHashId)
      case Some(hc) => Success((cols.Put(ParentHashColumn), fks + [Some(ForeignKey("parent_hash", parent, hc))]))
  }

  /** Everything `Table.__init__` decides, from its arguments and the parent's
      `hash_id` column: the resulting columns and foreign keys, or the error raised. */
  function BuildSchema(cs: seq<Column>, fkeys: seq<Option<ForeignKey>>, pkey: Option<PrimaryKey>, parent: Table?,
                       parentHashId: Option<Column>, hashKey: Option<seq<string>>, tagName: Option<string>)
    : (r: Result<(ColumnDict, seq<Option<ForeignKey>>), ConfigError>)
    ensures r.Failure? && r.error == MissingTagName <==> parent != null && !Given(tagName)
    ensures r.Success? ==> r.value.0.WellFormed()
    ensures r.Success? && parent != null ==> Given(tagName) && "parent_hash" in r.value.0.entries
    ensures r.Success? && IsSet(hashKey) ==> "hash_id" in r.value.0.entries
  {
    if parent != null && !Given(tagName) then Failure(MissingTagName)
    else
      match HashKeyStep(FromColumns(cs), pkey, hashKey)
      case Failure(e) => Failure(e)
      case Success(cols) => ParentHashStep(cols, fkeys, parent, parentHashId)
  }

  /** `parent_table.columns["hash_id"]`, when it exists. */
  function HashIdOf(parent: Table?): Option<Column>
    reads parent
  {
    if parent != null && "hash_id" in parent.columns.entries then Some(parent.columns.entries["hash_id"]) else None
  }

  // ---------------------------------------------------------------------------
  // DDL (xmlorm/orm.py:192-207)
  // ---------------------------------------------------------------------------

  /** The column lines of the statement. The ensures spell out the
      comprehension element by element for the proofs that use it;
      ColumnLinesRead states what each line means. */
  function ColumnLines(vs: seq<Column>): (lines: seq<string>)
    ensures |lines| == |vs|
    ensures forall i :: 0 <= i < |vs| ==> lines[i] == "  " + ColumnSql(vs[i])
  {
    seq(|vs|, i requires 0 <= i < |vs| => "  " + ColumnSql(vs[i]))
  }

  /** Each line is two spaces and a column rendering that reads back as its column. */
  lemma ColumnLinesRead(vs: seq<Column>)
    ensures forall i :: 0 <= i < |vs| ==>
              var line := ColumnLines(vs)[i];
              |line| >= 2 && line[..2] == "  " && ParseColumn(vs[i].name, line[2..]) == Some(vs[i])
  {
    forall i | 0 <= i < |vs|
      ensures var line := ColumnLines(vs)[i];
              |line| >= 2 && line[..2] == "  " && ParseColumn(vs[i].name, line[2..]) == Some(vs[i])
    {
      var line := ColumnLines(vs)[i];
      assert line[2..] == ColumnSql(vs[i]);
      ColumnSqlRoundTrip(vs[i]);
    }
  }

  /** The foreign keys that are not None, in order. */
  function Present(fks: seq<Option<ForeignKey>>): (ks: seq<ForeignKey>)
    ensures |ks| <= |fks|
    ensures forall i :: 0 <= i < |ks| ==> Some(ks[i]) in fks
    ensures forall i :: 0 <= i < |fks| && fks[i].Some? ==> fks[i].value in ks
  {
    if fks == [] then []
    else (if fks[0].Some? then [fks[0].value] else []) + Present(fks[1..])
  }

  /** Filtering distributes over concatenation: the keys of `a + b` are
      those of `a` followed by those of `b`. */
  lemma {:induction false} PresentAppend(a: seq<Option<ForeignKey>>, b: seq<Option<ForeignKey>>)
    ensures Present(a + b) == Present(a) + Present(b)
  {
    if a == [] {
      assert a + b == b;
    } else {
      assert (a + b)[1..] == a[1..] + b;
      PresentAppend(a[1..], b);
    }
  }

  /** A single entry contributes its key when it is one, and nothing when it is None. */
  lemma PresentSingle(fk: Option<ForeignKey>)
    ensures Present([fk]) == if fk.Some? then [fk.value] else []
  {
    assert [fk][1..] == [];
  }

  /** The clause `Table.__repr__` writes for one foreign key. */
  function ForeignKeyClause(k: ForeignKey): string
  {
    " foreign key(" + k.name + ") references " + k.table.name + "(" + k.column.name + ")"
  }

  /** Reads one clause of `Table.__repr__` back. */
  function ParseForeignKeyClause(s: string): Option<(string, string, string)>
  {
    ParseReference(s, " foreign key(", ") references ", "(")
  }

  /** A clause names the key's column, the referenced table and the
      referenced column, and can be read back into them. */
  lemma ForeignKeyClauseRoundTrip(k: ForeignKey)
    requires ')' !in k.name && '(' !in k.column.name
    ensures ParseForeignKeyClause(ForeignKeyClause(k)) == Some((k.name, k.table.name, k.column.name))
  {
    ParseReferenceOf(" foreign key(", k.name, ") references ", k.table.name, "(", k.column.name);
  }

  /** The foreign-key clauses of the statement. The ensures spell out the
      comprehension element by element for the proofs that use it;
      ForeignKeyClausesRead states what each clause means. */
  function ForeignKeyClauses(ks: seq<ForeignKey>): (cs: seq<string>)
    ensures |cs| == |ks|
    ensures forall i :: 0 <= i < |ks| ==> cs[i] == ForeignKeyClause(ks[i])
  {
    seq(|ks|, i requires 0 <= i < |ks| => ForeignKeyClause(ks[i]))
  }

  /** Each clause reads back as the key it was rendered from. */
  lemma ForeignKeyClausesRead(ks: seq<ForeignKey>)
    requires forall i :: 0 <= i < |ks| ==> ')' !in ks[i].name && '(' !in ks[i].column.name
    ensures forall i :: 0 <= i < |ks| ==>
              ParseForeignKeyClause(ForeignKeyClauses(ks)[i]) == Some((ks[i].name, ks[i].table.name, ks[i].column.name))
  {
    forall i | 0 <= i < |ks|
      ensures ParseForeignKeyClause(ForeignKeyClauses(ks)[i]) == Some((ks[i].name, ks[i].table.name, ks[i].column.name))
    {
      ForeignKeyClauseRoundTrip(ks[i]);
    }
  }

  /** "create table if not exists <name> (" */
  function DdlHead(name: string): string
  {
    "create table if not exists " + name + " ("
  }

  /** The column definitions, two-space indented, joined by ",\n", in key order. */
  function ColumnsPart(cols: ColumnDict): string
    requires cols.WellFormed()
  {
    Join(ColumnLines(cols.Values()), ",\n")
  }

  /** The foreign-key clauses of the keys that are not None, joined by ",\n". */
  function KeysPart(fks: seq<Option<ForeignKey>>): string
  {
    Join(ForeignKeyClauses(Present(fks)), ",\n")
  }

  function PrimaryKeyPart(pkey: Option<PrimaryKey>): string
  {
    if pkey.Some? then ",\n" + PrimaryKeySql(pkey.value) else ""
  }

  /** `Table.__repr__` as written: the ",\n" before the foreign-key clauses is
      emitted whenever the tuple is non-empty, even if every entry is None. */
  function DdlAsWritten(name: string, cols: ColumnDict, fks: seq<Option<ForeignKey>>, pkey: Option<PrimaryKey>): (s: string)
    requires cols.WellFormed()
    ensures |DdlHead(name)| <= |s| && s[..|DdlHead(name)|] == DdlHead(name)
    ensures EndsWith(s, ");")
  {
    var sep := if |fks| > 0 then ",\n" else "";
    Framed(DdlHead(name), ColumnsPart(cols), sep, KeysPart(fks), PrimaryKeyPart(pkey), ");");
    DdlHead(name) + (ColumnsPart(cols) + (sep + (KeysPart(fks) + (PrimaryKeyPart(pkey) + ");"))))
  }

  /** Text nested as the statement is opens with its head and ends with its close. */
  lemma Framed(head: string, a: string, b: string, c: string, d: string, close: string)
    ensures var s := head + (a + (b + (c + (d + close))));
            |head| <= |s| && s[..|head|] == head && EndsWith(s, close)
  {
    var s := head + (a + (b + (c + (d + close))));
    assert s[..|head|] == head;
    EndsWithSelf(d, close);
    EndsWithAppend(c, d + close, close);
    EndsWithAppend(b, c + (d + close), close);
    EndsWithAppend(a, b + (c + (d + close)), close);
    EndsWithAppend(head, a + (b + (c + (d + close))), close);
  }

  /** A given primary key is the last clause of the statement as written. */
  lemma DdlAsWrittenShape(name: string, cols: ColumnDict, fks: seq<Option<ForeignKey>>, pkey: Option<PrimaryKey>)
    requires cols.WellFormed()
    ensures pkey.Some? ==> EndsWith(DdlAsWritten(name, cols, fks, pkey), ",\n" + PrimaryKeySql(pkey.value) + ");")
  {
    if pkey.Some? {
      var last := PrimaryKeyPart(pkey) + ");";
      var tail := ColumnsPart(cols) + ((if |fks| > 0 then ",\n" else "") + (KeysPart(fks) + last));
      EndsWithSelf("", last);
      assert "" + last == last;
      EndsWithAppend(KeysPart(fks), last, last);
      EndsWithAppend(if |fks| > 0 then ",\n" else "", KeysPart(fks) + last, last);
      EndsWithAppend(ColumnsPart(cols), (if |fks| > 0 then ",\n" else "") + (KeysPart(fks) + last), last);
      EndsWithAppend(DdlHead(name), tail, last);
      assert ",\n" + PrimaryKeySql(pkey.value) + ");" == last;
    }
  }

  /** Every clause of the statement, in order: the columns in key order, one
      clause per foreign key that is not None, then the primary key if given. */
  function DdlClauses(cols: ColumnDict, fks: seq<Option<ForeignKey>>, pkey: Option<PrimaryKey>): (r: seq<string>)
    requires cols.WellFormed()
    ensures |r| == |cols.order| + |Present(fks)| + (if pkey.Some? then 1 else 0)
    ensures forall i :: 0 <= i < |cols.order| ==> r[i] == "  " + ColumnSql(cols.entries[cols.order[i]])
    ensures forall i :: 0 <= i < |Present(fks)| ==> r[|cols.order| + i] == ForeignKeyClause(Present(fks)[i])
    ensures pkey.Some? ==> r[|r| - 1] == PrimaryKeySql(pkey.value)
  {
    ColumnLines(cols.Values()) + ForeignKeyClauses(Present(fks))
    + (if pkey.Some? then [PrimaryKeySql(pkey.value)] else [])
  }

  /** The intended statement: the clauses joined by ",\n", without stray separators. */
  function Ddl(name: string, cols: ColumnDict, fks: seq<Option<ForeignKey>>, pkey: Option<PrimaryKey>): (s: string)
    requires cols.WellFormed()
    ensures |DdlHead(name)| <= |s| && s[..|DdlHead(name)|] == DdlHead(name)
    ensures EndsWith(s, ");")
  {
    Framed(DdlHead(name), "", "", "", Join(DdlClauses(cols, fks, pkey), ",\n"), ");");
    DdlHead(name) + (Join(DdlClauses(cols, fks, pkey), ",\n") + ");")
  }

  /** What the intended statement puts between the columns and the primary key:
      ",\n" and the foreign-key clauses when there is at least one key. */
  function KeysText(fks: seq<Option<ForeignKey>>): string
  {
    if |Present(fks)| > 0 then ",\n" + KeysPart(fks) else ""
  }

  /** The intended clause list joins to the columns, the keys and the primary key in turn. */
  lemma IntendedBody(cols: ColumnDict, fks: seq<Option<ForeignKey>>, pkey: Option<PrimaryKey>)
    requires cols.WellFormed() && |cols.order| > 0
    ensures Join(DdlClauses(cols, fks, pkey), ",\n") == ColumnsPart(cols) + (KeysText(fks) + PrimaryKeyPart(pkey))
  {
    var colPart := ColumnLines(cols.Values());
    var keyPart := ForeignKeyClauses(Present(fks));
    var pkPart: seq<string> := if pkey.Some? then [PrimaryKeySql(pkey.value)] else [];
    JoinAppendOptional(colPart, keyPart, ",\n");
    JoinAppendOptional(colPart + keyPart, pkPart, ",\n");
    var j1 := Join(colPart, ",\n");
    var j2 := if |keyPart| > 0 then ",\n" + Join(keyPart, ",\n") else "";
    var j3 := if |pkPart| > 0 then ",\n" + Join(pkPart, ",\n") else "";
    assert j2 == KeysText(fks);
    assert j3 == PrimaryKeyPart(pkey);
    ConcatAssoc(j1, j2, j3);
  }

  lemma NoneOnlyKeys(fks: seq<Option<ForeignKey>>)
    requires |Present(fks)| == 0
    ensures KeysPart(fks) == "" && KeysText(fks) == ""
  {
    assert ForeignKeyClauses(Present(fks)) == [];
  }

  /** For a table without columns the intended clause list is the keys and
      then the primary key, with no separator in front. */
  lemma IntendedBodyNoColumns(cols: ColumnDict, fks: seq<Option<ForeignKey>>, pkey: Option<PrimaryKey>)
    requires cols.WellFormed() && |cols.order| == 0
    ensures Join(DdlClauses(cols, fks, pkey), ",\n")
            == if |Present(fks)| > 0 then KeysPart(fks) + PrimaryKeyPart(pkey)
               else if pkey.Some? then PrimaryKeySql(pkey.value) else ""
  {
    var keyPart := ForeignKeyClauses(Present(fks));
    var pkPart: seq<string> := if pkey.Some? then [PrimaryKeySql(pkey.value)] else [];
    assert ColumnLines(cols.Values()) == [];
    assert DdlClauses(cols, fks, pkey) == keyPart + pkPart;
    if |keyPart| > 0 {
      JoinAppendOptional(keyPart, pkPart, ",\n");
    } else {
      assert keyPart + pkPart == pkPart;
    }
  }

  /** When `__repr__` as written gives the intended statement: with columns,
      when the key tuple is empty or holds a key that is not None; without
      columns, only when there is neither a key tuple nor a primary key. */
  predicate DdlAgrees(cols: ColumnDict, fks: seq<Option<ForeignKey>>, pkey: Option<PrimaryKey>)
  {
    if |cols.order| > 0 then |fks| == 0 || |Present(fks)| > 0
    else |fks| == 0 && pkey.None?
  }

  /** `__repr__` as written gives the intended statement exactly when DdlAgrees. */
  lemma DdlAsWrittenAgrees(name: string, cols: ColumnDict, fks: seq<Option<ForeignKey>>, pkey: Option<PrimaryKey>)
    requires cols.WellFormed()
    ensures DdlAsWritten(name, cols, fks, pkey) == Ddl(name, cols, fks, pkey) <==> DdlAgrees(cols, fks, pkey)
  {
    var c := ColumnsPart(cols);
    var k := KeysPart(fks);
    var last := PrimaryKeyPart(pkey) + ");";
    var sep := if |fks| > 0 then ",\n" else "";
    var w := sep + (k + last);
    var j := Join(DdlClauses(cols, fks, pkey), ",\n");
    assert DdlAsWritten(name, cols, fks, pkey) == DdlHead(name) + (c + w);
    assert Ddl(name, cols, fks, pkey) == DdlHead(name) + (j + ");");
    PrefixCancel(DdlHead(name), c + w, j + ");");
    if |cols.order| > 0 {
      ColumnsAgree(cols, fks, pkey);
    } else {
      assert c == "";
      assert c + w == w;
      NoColumnsAgree(cols, fks, pkey);
    }
  }

  /** The case with columns: only a tuple of None keys makes the two differ. */
  lemma ColumnsAgree(cols: ColumnDict, fks: seq<Option<ForeignKey>>, pkey: Option<PrimaryKey>)
    requires cols.WellFormed() && |cols.order| > 0
    ensures var w := (if |fks| > 0 then ",\n" else "") + (KeysPart(fks) + (PrimaryKeyPart(pkey) + ");"));
            ColumnsPart(cols) + w == Join(DdlClauses(cols, fks, pkey), ",\n") + ");"
            <==> |fks| == 0 || |Present(fks)| > 0
  {
    IntendedBody(cols, fks, pkey);
    var c := ColumnsPart(cols);
    var k := KeysPart(fks);
    var last := PrimaryKeyPart(pkey) + ");";
    var sep := if |fks| > 0 then ",\n" else "";
    var w := sep + (k + last);
    var i := KeysText(fks) + last;
    ConcatAssoc(c, KeysText(fks) + PrimaryKeyPart(pkey), ");");
    ConcatAssoc(KeysText(fks), PrimaryKeyPart(pkey), ");");
    assert Join(DdlClauses(cols, fks, pkey), ",\n") + ");" == c + i;
    PrefixCancel(c, w, i);
    if |Present(fks)| > 0 {
      ConcatAssoc(",\n", k, last);
      assert w == i;
    } else {
      NoneOnlyKeys(fks);
      if |fks| == 0 {
        assert w == last == i;
      } else {
        assert |w| == |i| + 2;
      }
    }
  }

  /** The case without columns: any key tuple or primary key leaves a
      separator in front of the first clause. */
  lemma NoColumnsAgree(cols: ColumnDict, fks: seq<Option<ForeignKey>>, pkey: Option<PrimaryKey>)
    requires cols.WellFormed() && |cols.order| == 0
    ensures var w := (if |fks| > 0 then ",\n" else "") + (KeysPart(fks) + (PrimaryKeyPart(pkey) + ");"));
            w == Join(DdlClauses(cols, fks, pkey), ",\n") + ");" <==> |fks| == 0 && pkey.None?
  {
    IntendedBodyNoColumns(cols, fks, pkey);
    var k := KeysPart(fks);
    var p := PrimaryKeyPart(pkey);
    var w := (if |fks| > 0 then ",\n" else "") + (k + (p + ");"));
    var i := Join(DdlClauses(cols, fks, pkey), ",\n") + ");";
    if |Present(fks)| > 0 {
      assert |w| == |i| + 2;
    } else {
      NoneOnlyKeys(fks);
      if pkey.Some? {
        assert |w| >= |i| + 2;
      } else if |fks| > 0 {
        assert |w| == |i| + 2;
      } else {
        assert w == ");" == i;
      }
    }
  }

  /** A key tuple that is non-empty but holds only None: as written, the
      separator before the keys is left dangling, in front of the primary key
      when there is one and in front of the close otherwise. */
  lemma NoneKeysDdl(name: string, cols: ColumnDict, fks: seq<Option<ForeignKey>>, pkey: Option<PrimaryKey>)
    requires cols.WellFormed() && |fks| > 0 && |Present(fks)| == 0
    ensures DdlAsWritten(name, cols, fks, pkey) == DdlHead(name) + (ColumnsPart(cols) + (",\n" + (PrimaryKeyPart(pkey) + ");")))
    ensures pkey.None? ==> DdlAsWritten(name, cols, fks, pkey) == DdlHead(name) + (ColumnsPart(cols) + ",\n);")
  {
    NoneOnlyKeys(fks);
    assert ",\n" + ("" + (PrimaryKeyPart(pkey) + ");")) == ",\n" + (PrimaryKeyPart(pkey) + ");");
    if pkey.None? {
      assert ",\n" + ("" + ");") == ",\n);";
    }
  }

  /** The intended statement for a table with columns and such a tuple: the
      primary key, when there is one, follows the columns directly, and the
      statement closes after it. */
  lemma NoneKeysIntended(name: string, cols: ColumnDict, fks: seq<Option<ForeignKey>>, pkey: Option<PrimaryKey>)
    requires cols.WellFormed() && |cols.order| > 0 && |Present(fks)| == 0
    ensures Ddl(name, cols, fks, pkey) == DdlHead(name) + (ColumnsPart(cols) + (PrimaryKeyPart(pkey) + ");"))
    ensures pkey.None? ==> Ddl(name, cols, fks, pkey) == DdlHead(name) + (ColumnsPart(cols) + ");")
  {
    var c, p := ColumnsPart(cols), PrimaryKeyPart(pkey);
    NoneOnlyKeys(fks);
    IntendedBody(cols, fks, pkey);
    assert Join(DdlClauses(cols, fks, pkey), ",\n") == c + p by {
      assert KeysText(fks) + p == p;
    }
    ConcatAssoc(c, p, ");");
    if pkey.None? {
      assert p + ");" == ");";
    }
  }

  /** A table without columns or keys but with a primary key: as written, the
      clause list opens with a separator. */
  lemma NoColumnsDdl(name: string, cols: ColumnDict, pk: PrimaryKey)
    requires cols.WellFormed() && |cols.order| == 0
    ensures DdlAsWritten(name, cols, [], Some(pk)) == DdlHead(name) + ((",\n" + PrimaryKeySql(pk)) + ");")
  {
    assert ColumnsPart(cols) == "" by {
      assert ColumnLines(cols.Values()) == [];
    }
    NoneOnlyKeys([]);
  }

  /** The intended statement for the same table opens its clause list with the key. */
  lemma NoColumnsIntended(name: string, cols: ColumnDict, pk: PrimaryKey)
    requires cols.WellFormed() && |cols.order| == 0
    ensures Ddl(name, cols, [], Some(pk)) == DdlHead(name) + (PrimaryKeySql(pk) + ");")
  {
    IntendedBodyNoColumns(cols, [], Some(pk));
  }

  /** The table "t" with one text column "a" and the key tuple `(None,)`. */
  lemma DdlDanglingSeparator()
    ensures DdlAsWritten("t", FromColumns([Column("a", Text, false, false)]), [None], None)
            == "create table if not exists t (  a text,\n);"
  {
    OneTextColumn();
    PresentSingle(None);
    NoneKeysDdl("t", FromColumns([Column("a", Text, false, false)]), [None], None);
    DanglingText();
  }

  /** The intended statement for the same table has no dangling separator. */
  lemma DdlNoneKeyIntended()
    ensures Ddl("t", FromColumns([Column("a", Text, false, false)]), [None], None)
            == "create table if not exists t (  a text);"
  {
    OneTextColumn();
    PresentSingle(None);
    NoneKeysIntended("t", FromColumns([Column("a", Text, false, false)]), [None], None);
    NoneKeyText();
  }

  /** The table "t" with no columns and a primary key on "a". */
  lemma DdlNoColumnsSeparator()
    ensures DdlAsWritten("t", EmptyDict, [], Some(PrimaryKey(["a"])))
            == "create table if not exists t (,\nprimary key (a));"
  {
    NoColumnsDdl("t", EmptyDict, PrimaryKey(["a"]));
    PrimaryKeyA();
    NoColumnsText();
  }

  /** The intended statement for the same table opens with the primary key. */
  lemma DdlNoColumnsIntended()
    ensures Ddl("t", EmptyDict, [], Some(PrimaryKey(["a"])))
            == "create table if not exists t (primary key (a));"
  {
    NoColumnsIntended("t", EmptyDict, PrimaryKey(["a"]));
    PrimaryKeyA();
    NoColumnsIntendedText();
  }

  lemma DanglingText()
    ensures DdlHead("t") + ("  a text" + ",\n);") == "create table if not exists t (  a text,\n);"
  {
  }

  lemma NoneKeyText()
    ensures DdlHead("t") + ("  a text" + ");") == "create table if not exists t (  a text);"
  {
  }

  lemma NoColumnsText()
    ensures DdlHead("t") + ((",\n" + "primary key (a)") + ");") == "create table if not exists t (,\nprimary key (a));"
  {
  }

  lemma NoColumnsIntendedText()
    ensures DdlHead("t") + ("primary key (a)" + ");") == "create table if not exists t (primary key (a));"
  {
  }

  lemma PrimaryKeyA()
    ensures PrimaryKeySql(PrimaryKey(["a"])) == "primary key (a)"
  {
  }

  lemma OneTextColumn()
    ensures var cols := FromColumns([Column("a", Text, false, false)]);
            && cols.WellFormed() && cols.order == ["a"]
            && ColumnsPart(cols) == "  a text"
  {
    var a := Column("a", Text, false, false);
    assert [a][..0] == [];
    assert FromColumns([]) == EmptyDict;
    var cols := FromColumns([a]);
    assert cols == EmptyDict.Put(a);
    assert cols.Values() == [a];
    assert ColumnSql(a) == "a text";
    var lines := ColumnLines([a]);
    assert lines[0] == "  a text";
    assert lines == ["  a text"];
  }

  // ---------------------------------------------------------------------------
  // Table (xmlorm/orm.py:130-324)
  // ---------------------------------------------------------------------------

  class Table {
    const name: string
    const topTag: string
    const parent: Table?
    const hashKey: Option<seq<string>>
    const tagName: Option<string>
    const primaryKey: Option<PrimaryKey>

    /** The length of the parent chain above this table, and the tables on it. */
    ghost const depth: nat
    ghost const Ancestors: set<Table>

    var columns: ColumnDict
    var foreignKeys: seq<Option<ForeignKey>>
    /** `self.__filename`: None on a child table, whose file is its parent's. */
    var storedFilename: Option<string>

    /** The parent links form a finite chain. */
    ghost predicate Linked()
      decreases depth
    {
      if parent == null then depth == 0 && Ancestors == {}
      else depth == parent.depth + 1 && Ancestors == {parent} + parent.Ancestors && parent.Linked()
    }

    /** What construction establishes and nothing afterwards breaks. */
    ghost predicate Valid()
      reads this
    {
      && Linked()
      && columns.WellFormed()
      && (parent == null <==> storedFilename.Some?)
      && (parent != null ==> Given(tagName) && "parent_hash" in columns.entries)
      && (IsSet(hashKey) ==> "hash_id" in columns.entries)
    }

    /** `{c.name : c for c in columns}`, one assignment per declared column. */
    static method BuildColumns(cs: seq<Column>) returns (d: ColumnDict)
      ensures d == FromColumns(cs)
      ensures d.WellFormed()
    {
      d := EmptyDict;
      var i := 0;
      while i < |cs|
        invariant 0 <= i <= |cs|
        invariant d == FromColumns(cs[..i])
      {
        assert cs[..i + 1][..i] == cs[..i];
        d := d.Put(cs[i]);
        i := i + 1;
      }
      assert cs[..|cs|] == cs;
    }

    /** Lines 161-176 of `__init__`: store the arguments, default the file name
        and build the column dict in declaration order. */
    constructor Init(name: string, cs: seq<Column>, topTag: string, fkeys: seq<Option<ForeignKey>>,
                     pkey: Option<PrimaryKey>, parent: Table?, hashKey: Option<seq<string>>, tagName: Option<string>)
      requires parent != null ==> parent.Linked()
      ensures Linked()
      ensures this.name == name && this.topTag == topTag && this.parent == parent
      ensures this.hashKey == hashKey && this.tagName == tagName && this.primaryKey == pkey
      ensures storedFilename == if parent == null then Some(name + ".xml") else None
      ensures columns == FromColumns(cs)
      ensures foreignKeys == fkeys
    {
      this.name := name;
      this.topTag := topTag;
      var filename := Some(name + ".xml");
      if parent != null {
        filename := None;
      }
      storedFilename := filename;
      var d := BuildColumns(cs);
      columns := d;
      foreignKeys := fkeys;
      primaryKey := pkey;
      this.parent := parent;
      this.hashKey := hashKey;
      this.tagName := tagName;
      depth := if parent == null then 0 else parent.depth + 1;
      Ancestors := if parent == null then {} else {parent} + parent.Ancestors;
    }

    /** `__enforce_hashkey`. */
    method EnforceHashKey() returns (err: Option<ConfigError>)
      requires columns.WellFormed()
      modifies this`columns
      ensures var r := HashKeyStep(old(columns), primaryKey, hashKey);
              if r.Success? then err.None? && columns == r.value
              else err == Some(r.error) && columns == old(columns)
    {
      if !IsSet(hashKey) || columns.HasPrimaryKeyColumn("hash_id") {
        return None;
      }
      var i := 0;
      while i < |columns.order|
        invariant 0 <= i <= |columns.order|
        invariant forall j :: 0 <= j < i ==> !columns.entries[columns.order[j]].primaryKey
      {
        if columns.entries[columns.order[i]].primaryKey {
          return Some(HashKeyWithPrimaryKeyColumn);
        }
        i := i + 1;
      }
      if primaryKey.Some? {
        return Some(HashKeyWithPrimaryKey);
      }
      if "hash_id" !in columns.entries {
        columns := columns.Put(HashIdColumn);
      }
      return None;
    }

    /** `__enforce_parent_hash`.  As in the source, the `parent_hash` column is
        written before the parent's `hash_id` is looked up. */
    method EnforceParentHash() returns (err: Option<ConfigError>)
      requires Linked() && columns.WellFormed()
      modifies this`columns, this`foreignKeys
      ensures var r := ParentHashStep(old(columns), old(foreignKeys), parent, HashIdOf(parent));
              if r.Success? then err.None? && (columns, foreignKeys) == r.value
              else err == Some(r.error) && columns == old(columns).Put(ParentHashColumn)
                   && foreignKeys == old(foreignKeys)
    {
      if parent == null || columns.HasPrimaryKeyColumn("parent_hash") {
        return None;
      }
      columns := columns.Put(ParentHashColumn);
      if "hash_id" !in parent.columns.entries {
        return Some(ParentWithoutHashId);
      }
      foreignKeys := foreignKeys + [Some(ForeignKey("parent_hash", parent, parent.columns.entries["hash_id"]))];
      return None;
    }

    /** `Table(...)`: a new valid table, or the error its constructor raises. */
    static method Create(name: string, cs: seq<Column>, topTag: string, fkeys: seq<Option<ForeignKey>>,
                         pkey: Option<PrimaryKey>, parent: Table?, hashKey: Option<seq<string>>,
                         tagName: Option<string>) returns (r: Result<Table, ConfigError>)
      requires parent != null ==> parent.Valid()
      ensures var b := BuildSchema(cs, fkeys, pkey, parent, HashIdOf(parent), hashKey, tagName);
              && (r.Failure? <==> b.Failure?)
              && (r.Failure? ==> r.error == b.error)
              && (r.Success? ==>
                    && fresh(r.value) && r.value.Valid()
                    && r.value.name == name && r.value.topTag == topTag && r.value.parent == parent
                    && r.value.hashKey == hashKey && r.value.tagName == tagName && r.value.primaryKey == pkey
                    && r.value.columns == b.value.0 && r.value.foreignKeys == b.value.1
                    && r.value.storedFilename == (if parent == null then Some(name + ".xml") else None))
    {
      if parent != null && !Given(tagName) {
        return Failure(MissingTagName);
      }
      var t := new Table.Init(name, cs, topTag, fkeys, pkey, parent, hashKey, tagName);
      var err := t.EnforceHashKey();
      if err.Some? {
        return Failure(err.value);
      }
      err := t.EnforceParentHash();
      if err.Some? {
        return Failure(err.value);
      }
      return Success(t);
    }

    /** The `filename` property: the parent's file name on a child table. */
    function Filename(): (f: Option<string>)
      reads {this} + Ancestors
      requires Linked()
      ensures f == Root().storedFilename
      decreases depth
    {
      if parent != null then parent.Filename() else storedFilename
    }

    /** The table at the top of the chain. */
    ghost function Root(): (t: Table)
      requires Linked()
      ensures t.parent == null && t.Linked()
      ensures t == this || t in Ancestors
      decreases depth
    {
      if parent == null then this else parent.Root()
    }

    /** The `filename` setter: it takes effect on a root table only. */
    method SetFilename(fname: string)
      requires Valid()
      modifies this`storedFilename
      ensures Valid()
      ensures parent == null ==> Filename() == Some(fname)
      ensures parent != null ==> storedFilename == old(storedFilename)
    {
      if parent == null {
        storedFilename := Some(fname);
      }
    }

    /** `build_tag_path()`. */
    function BuildTagPath(): (path: string)
      requires Linked()
      ensures path == Join(ChainTags(), "/")
      decreases depth
    {
      var tag := if parent != null then parent.BuildTagPath() else topTag;
      var up := if parent != null then parent.ChainTags() else [topTag];
      if Given(tagName) then
        JoinAppend(up, [tagName.value], "/");
        tag + "/" + tagName.value
      else
        assert ChainTags() == up;
        tag
    }

    /** The tags a path is made of: the root's `top_tag`, then every `tag_name`
        that is set along the chain, top down.  Child tables' own `top_tag`s play no part. */
    ghost function ChainTags(): (tags: seq<string>)
      requires Linked()
      ensures |tags| > 0
      decreases depth
    {
      (if parent != null then parent.ChainTags() else [topTag]) + (if Given(tagName) then [tagName.value] else [])
    }

    /** `__repr__`: the DDL text as the source writes it. It opens with the
        table's head, closes with ");", ends in the primary key when one is
        given, and is the intended statement exactly when DdlAgrees. */
    function Sql(): (s: string)
      reads this
      requires Valid()
      ensures |DdlHead(name)| <= |s| && s[..|DdlHead(name)|] == DdlHead(name)
      ensures EndsWith(s, ");")
      ensures primaryKey.Some? ==> EndsWith(s, ",\n" + PrimaryKeySql(primaryKey.value) + ");")
      ensures s == Ddl(name, columns, foreignKeys, primaryKey) <==> DdlAgrees(columns, foreignKeys, primaryKey)
    {
      DdlAsWrittenShape(name, columns, foreignKeys, primaryKey);
      DdlAsWrittenAgrees(name, columns, foreignKeys, primaryKey);
      DdlAsWritten(name, columns, foreignKeys, primaryKey)
    }

    /** `read_row(node)`. */
    method ReadRow(node: Element, num: Numeric) returns (r: Result<Row, ReadError>)
      ensures r == Rows.ReadRow(columns, node, num)
    {
      var row := EmptyRow(columns);
      var i := 0;
      while i < |node.children|
        invariant 0 <= i <= |node.children|
        invariant RowFrom(columns, node.children[..i], num) == Success(row)
      {
        var child := node.children[i];
        assert node.children[..i + 1][..i] == node.children[..i];
        if child.tag in columns.entries {
          var val := child.text;
          var col := columns.entries[child.tag];
          if (col.tpe == Integer || col.tpe == Real) && val.Some? {
            var cell := Cell(col.tpe, child.tag, val, num);
            if cell.Failure? {
              assert RowFrom(columns, node.children[..i + 1], num) == Failure(cell.error);
              RowFromFailed(columns, node.children, num, i + 1);
              return Failure(cell.error);
            }
            row := row[child.tag := cell.value];
          } else {
            row := row[child.tag := if val.Some? then Str(val.value) else Null];
          }
        }
        i := i + 1;
      }
      assert node.children[..|node.children|] == node.children;
      return Success(row);
    }

    /** `get_hash_key(row)`: `digest` of `str(row[k])` fed in key order. */
    method GetHashKey(row: Row, digest: string -> string) returns (r: Result<string, ReadError>)
      requires hashKey.Some?
      ensures r == HashKey(hashKey.value, row, digest)
    {
      var keys := hashKey.value;
      var fed := "";
      var i := 0;
      while i < |keys|
        invariant 0 <= i <= |keys|
        invariant HashInput(keys[..i], row) == Success(fed)
      {
        assert keys[..i + 1][..i] == keys[..i];
        var key := keys[i];
        if key !in row {
          assert HashInput(keys[..i + 1], row) == Failure(MissingKey(key));
          HashInputFailed(keys, row, i + 1);
          return Failure(MissingKey(key));
        }
        fed := fed + Show(row[key]);
        i := i + 1;
      }
      assert keys[..|keys|] == keys;
      return Success(digest(fed));
    }

    /** The body of the loop of `__read_parent`: `read_row`, then `hash_id`
        when a hash key is set. */
    method ReadRootRow(el: Element, num: Numeric, digest: string -> string) returns (r: Result<Row, ReadError>)
      ensures r == RootRow(columns, hashKey, el, num, digest)
    {
      var row := ReadRow(el, num);
      if row.Failure? {
        return Failure(row.error);
      }
      var cells := row.value;
      if IsSet(hashKey) {
        var h := GetHashKey(cells, digest);
        if h.Failure? {
          return Failure(h.error);
        }
        cells := cells["hash_id" := Str(h.value)];
      }
      return Success(cells);
    }

    /** `__read_parent`, on the parsed document `root`. */
    method ReadParent(root: Element, num: Numeric, digest: string -> string) returns (r: Result<seq<Row>, ReadError>)
      requires Linked()
      ensures r == RootRows(columns, hashKey, FindAll(root, BuildTagPath()), num, digest)
    {
      var els := FindAll(root, BuildTagPath());
      var data: seq<Row> := [];
      var i := 0;
      while i < |els|
        invariant 0 <= i <= |els|
        invariant RootRows(columns, hashKey, els[..i], num, digest) == Success(data)
      {
        assert els[..i + 1][..i] == els[..i];
        var row := ReadRootRow(els[i], num, digest);
        if row.Failure? {
          assert RootRows(columns, hashKey, els[..i + 1], num, digest) == Failure(row.error);
          RootRowsFailed(columns, hashKey, els, num, digest, i + 1);
          return Failure(row.error);
        }
        data := data + [row.value];
        i := i + 1;
      }
      assert els[..|els|] == els;
      return Success(data);
    }

    /** The inner loop of `__read_child`: the rows of the child elements `els`
        of one parent element whose hash is `parentHash`. */
    method ReadChildrenOf(els: seq<Element>, parentHash: string, num: Numeric) returns (r: Result<seq<Row>, ReadError>)
      ensures r == ChildRowsUnder(columns, els, parentHash, num)
    {
      var data: seq<Row> := [];
      var j := 0;
      while j < |els|
        invariant 0 <= j <= |els|
        invariant ChildRowsUnder(columns, els[..j], parentHash, num) == Success(data)
      {
        assert els[..j + 1][..j] == els[..j];
        var row := ReadRow(els[j], num);
        if row.Failure? {
          assert ChildRowsUnder(columns, els[..j + 1], parentHash, num) == Failure(row.error);
          ChildRowsUnderFailed(columns, els, parentHash, num, j + 1);
          return Failure(row.error);
        }
        data := data + [row.value["parent_hash" := Str(parentHash)]];
        j := j + 1;
      }
      assert els[..|els|] == els;
      return Success(data);
    }

    /** `__read_child`, on the parsed document `root`. */
    method ReadChild(root: Element, num: Numeric, digest: string -> string) returns (r: Result<seq<Row>, ReadError>)
      requires Valid() && parent != null
      ensures !IsSet(parent.hashKey) ==> r == Failure(ParentWithoutHashKey)
      ensures IsSet(parent.hashKey) ==>
                r == ChildRows(parent.columns, parent.hashKey.value, columns, tagName.value,
                               FindAll(root, parent.BuildTagPath()), num, digest)
    {
      if !IsSet(parent.hashKey) {
        return Failure(ParentWithoutHashKey);
      }
      var parentKey := parent.hashKey.value;
      var parents := FindAll(root, parent.BuildTagPath());
      var childTag := tagName.value;
      var data: seq<Row> := [];
      var i := 0;
      while i < |parents|
        invariant 0 <= i <= |parents|
        invariant ChildRows(parent.columns, parentKey, columns, childTag, parents[..i], num, digest) == Success(data)
      {
        var step := ReadOneParent(parents[i], num, digest);
        ChildRowsExtend(parent.columns, parentKey, columns, childTag, parents, num, digest, i, data);
        if step.Failure? {
          ChildRowsFailed(parent.columns, parentKey, columns, childTag, parents, num, digest, i + 1);
          return Failure(step.error);
        }
        data := data + step.value;
        i := i + 1;
      }
      assert parents[..|parents|] == parents;
      return Success(data);
    }

    /** The body of the outer loop of `__read_child`: read the parent row, hash
        it, then read the child rows under that parent. */
    method ReadOneParent(parentEl: Element, num: Numeric, digest: string -> string) returns (r: Result<seq<Row>, ReadError>)
      requires Valid() && parent != null && IsSet(parent.hashKey)
      ensures r == ChildRowsOf(parent.columns, parent.hashKey.value, columns, tagName.value, parentEl, num, digest)
    {
      var parentRow := parent.ReadRow(parentEl, num);
      if parentRow.Failure? {
        return Failure(parentRow.error);
      }
      var parentHash := parent.GetHashKey(parentRow.value, digest);
      if parentHash.Failure? {
        return Failure(parentHash.error);
      }
      r := ReadChildrenOf(FindAll(parentEl, tagName.value), parentHash.value, num);
    }

    /** `read_table`, with the parsed document in place of the file. */
    method ReadTable(root: Element, num: Numeric, digest: string -> string) returns (r: Result<seq<Row>, ReadError>)
      requires Valid()
      ensures parent == null ==> r == RootRows(columns, hashKey, FindAll(root, BuildTagPath()), num, digest)
      ensures parent != null && !IsSet(parent.hashKey) ==> r == Failure(ParentWithoutHashKey)
      ensures parent != null && IsSet(parent.hashKey) ==>
                r == ChildRows(parent.columns, parent.hashKey.value, columns, tagName.value,
                               FindAll(root, parent.BuildTagPath()), num, digest)
    {
      if parent != null {
        r := ReadChild(root, num, digest);
      } else {
        r := ReadParent(root, num, digest);
      }
    }

    /** For a child of a root table, the two reads of `read_table` fit together:
        every row of the child read carries as `parent_hash` the `hash_id` of a
        row of the parent's read (the two results ReadTable gives on `root`). */
    lemma ChildRowsPointAtParentRows(root: Element, num: Numeric, digest: string -> string)
      requires Valid() && parent != null && parent.parent == null && IsSet(parent.hashKey)
      requires RootRows(parent.columns, parent.hashKey, FindAll(root, parent.BuildTagPath()), num, digest).Success?
      requires ChildRows(parent.columns, parent.hashKey.value, columns, tagName.value,
                         FindAll(root, parent.BuildTagPath()), num, digest).Success?
      ensures var prows := RootRows(parent.columns, parent.hashKey, FindAll(root, parent.BuildTagPath()), num, digest).value;
              var crows := ChildRows(parent.columns, parent.hashKey.value, columns, tagName.value,
                                     FindAll(root, parent.BuildTagPath()), num, digest).value;
              forall k :: 0 <= k < |crows| ==>
                && "parent_hash" in crows[k]
                && exists i :: 0 <= i < |prows| && "hash_id" in prows[i] && crows[k]["parent_hash"] == prows[i]["hash_id"]
    {
      var key := parent.hashKey.value;
      assert parent.hashKey == Some(key);
      ChildRowsCarryParentHashId(parent.columns, key, columns, tagName.value,
                                 FindAll(root, parent.BuildTagPath()), num, digest);
    }

    /** A child table reads one row per element its own tag path matches. */
    lemma ChildRowsFollowTagPath(root: Element, num: Numeric, digest: string -> string)
      requires Valid() && parent != null && IsSet(parent.hashKey)
      requires ChildRows(parent.columns, parent.hashKey.value, columns, tagName.value,
                         FindAll(root, parent.BuildTagPath()), num, digest).Success?
      ensures |ChildRows(parent.columns, parent.hashKey.value, columns, tagName.value,
                         FindAll(root, parent.BuildTagPath()), num, digest).value|
              == |FindAll(root, BuildTagPath())|
    {
      FindAllExtend(root, parent.BuildTagPath(), tagName.value);
      ChildRowsAt(parent.columns, parent.hashKey.value, columns, tagName.value,
                  FindAll(root, parent.BuildTagPath()), num, digest);
    }
  }
}
