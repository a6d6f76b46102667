/** Column types, columns and the insertion-ordered name -> column mapping
    a table keeps (xmlorm/orm.py:95-128 and the dict built at line 170). */
module Columns {
  import opened Wrappers
  import opened Strings

  /** The four column types of orm.py.  A closed datatype: there is no base
      type left to instantiate. */
  datatype ColumnType = Integer | Timestamp | Real | Text

  /** The SQL keyword each type renders to (`__repr__` of each type class). */
  function TypeSql(t: ColumnType): (k: string)
    ensures |k| > 0 && ' ' !in k
  {
    match t
    case Integer => "integer"
    case Timestamp => "timestamp"
    case Real => "real"
    case Text => "text"
  }

  /** Reads a type keyword back. */
  function ParseType(s: string): (r: Option<ColumnType>)
    ensures r.Some? ==> TypeSql(r.value) == s
  {
    if s == "integer" then Some(Integer)
    else if s == "timestamp" then Some(Timestamp)
    else if s == "real" then Some(Real)
    else if s == "text" then Some(Text)
    else None
  }

  /** Every keyword reads back as the type it came from, so no two types share one. */
  lemma TypeSqlRoundTrip(t: ColumnType)
    ensures ParseType(TypeSql(t)) == Some(t)
  {
  }

  datatype Column = Column(name: string, tpe: ColumnType, notNull: bool, primaryKey: bool)

  /** `Column(name, tpe=None, not_null=False, primary_key=False)`: a missing type means Text. */
  function NewColumn(name: string, tpe: Option<ColumnType>, notNull: bool, primaryKey: bool): (c: Column)
    ensures c.name == name && c.notNull == notNull && c.primaryKey == primaryKey
    ensures tpe.None? ==> c.tpe == Text
    ensures tpe.Some? ==> c.tpe == tpe.value
  {
    Column(name, if tpe.Some? then tpe.value else Text, notNull, primaryKey)
  }

  /** The repr of a column built with the defaults: `Column("name")` renders
      as "name text" and `Column("name", primary_key=True)` as "name text primary key". */
  lemma NewColumnDefaults(name: string)
    ensures ColumnSql(NewColumn(name, None, false, false)) == name + " text"
    ensures ColumnSql(NewColumn(name, None, false, true)) == name + " text primary key"
    ensures ColumnSql(NewColumn(name, None, true, false)) == name + " text not null"
  {
  }

  /** `Column.__repr__`: name, a space, the type keyword, then the two optional flags. */
  function ColumnSql(c: Column): (s: string)
    ensures |c.name| < |s| && s[..|c.name| + 1] == c.name + " "
  {
    var s := c.name + " " + TypeSql(c.tpe)
             + (if c.primaryKey then " primary key" else "")
             + (if c.notNull then " not null" else "");
    assert s[..|c.name| + 1] == c.name + " ";
    s
  }

  /** Reads the rendering of a column called `name` back: the partner of ColumnSql. */
  function ParseColumn(name: string, s: string): Option<Column>
  {
    var head := name + " ";
    if |s| < |head| || s[..|head|] != head then None
    else
      var (notNull, rest) := StripSuffix(s[|head|..], " not null");
      var (primaryKey, keyword) := StripSuffix(rest, " primary key");
      match ParseType(keyword)
      case Some(t) => Some(Column(name, t, notNull, primaryKey))
      case None => None
  }

  /** The rendering of a column determines the column: flags come out in the
      order " primary key", " not null", each exactly when it is set. */
  lemma ColumnSqlRoundTrip(c: Column)
    ensures ParseColumn(c.name, ColumnSql(c)) == Some(c)
  {
    var head := c.name + " ";
    var flags := (if c.primaryKey then " primary key" else "") + (if c.notNull then " not null" else "");
    var tail := TypeSql(c.tpe) + flags;
    assert ColumnSql(c) == head + tail;
    assert (head + tail)[..|head|] == head;
    assert (head + tail)[|head|..] == tail;
    var withPk := TypeSql(c.tpe) + (if c.primaryKey then " primary key" else "");
    assert tail == withPk + (if c.notNull then " not null" else "");
    if c.notNull {
      assert EndsWith(tail, " not null");
      assert StripSuffix(tail, " not null") == (true, withPk);
    } else {
      NoNotNullSuffix(c.tpe, c.primaryKey);
    }
    if c.primaryKey {
      assert EndsWith(withPk, " primary key");
      assert StripSuffix(withPk, " primary key") == (true, TypeSql(c.tpe));
    } else {
      NoPrimaryKeySuffix(c.tpe);
    }
    TypeSqlRoundTrip(c.tpe);
  }

  lemma NoNotNullSuffix(t: ColumnType, primaryKey: bool)
    ensures !EndsWith(TypeSql(t) + (if primaryKey then " primary key" else ""), " not null")
  {
    var s := TypeSql(t) + (if primaryKey then " primary key" else "");
    if |s| >= 9 {
      if primaryKey {
        assert s[|s| - 9..][8] == s[|s| - 1] == 'y';
      } else {
        assert s[|s| - 9..][0] == s[0] != ' ';
      }
    }
  }

  lemma NoPrimaryKeySuffix(t: ColumnType)
    ensures !EndsWith(TypeSql(t), " primary key")
  {
  }

  /** A Python dict from column name to column: keys in insertion order, and
      assignment to an existing key replaces its value in place. */
  datatype ColumnDict = ColumnDict(order: seq<string>, entries: map<string, Column>)
  {
    /** The order lists each key once, the keys are those of the map, and the
        dict is keyed by each column's own name. */
    ghost predicate WellFormed()
    {
      && (forall i, j :: 0 <= i < j < |order| ==> order[i] != order[j])
      && (forall k :: k in order <==> k in entries)
      && (forall k :: k in entries ==> entries[k].name == k)
    }

    /** `d[c.name] = c`. */
    function Put(c: Column): (d: ColumnDict)
      ensures d.entries == entries[c.name := c]
      ensures c.name in entries ==> d.order == order
      ensures c.name !in entries ==> d.order == order + [c.name]
      ensures WellFormed() ==> d.WellFormed()
    {
      if c.name in entries then ColumnDict(order, entries[c.name := c])
      else ColumnDict(order + [c.name], entries[c.name := c])
    }

    /** `d.values()`, in key order. The ensures spell out the comprehension
        element by element for the proofs that use it; ValuesListEach states
        what the list means. */
    function Values(): (vs: seq<Column>)
      requires WellFormed()
      ensures |vs| == |order|
      ensures forall i :: 0 <= i < |order| ==> vs[i] == entries[order[i]]
    {
      seq(|order|, i requires 0 <= i < |order| => entries[order[i]])
    }

    /** `values()` lists every column of the dict exactly once: the i-th value
        is the column named by the i-th key, and no name comes twice. */
    lemma ValuesListEach()
      requires WellFormed()
      ensures forall i :: 0 <= i < |order| ==> Values()[i].name == order[i]
      ensures forall k :: k in entries ==> entries[k] in Values()
      ensures forall i, j :: 0 <= i < j < |order| ==> Values()[i].name != Values()[j].name
    {
      var vs := Values();
      forall k | k in entries ensures entries[k] in vs {
        var i :| 0 <= i < |order| && order[i] == k;
        assert vs[i] == entries[k];
      }
    }

    /** `name in d and d[name].is_primary_key` */
    predicate HasPrimaryKeyColumn(name: string)
    {
      name in entries && entries[name].primaryKey
    }
  }

  const EmptyDict := ColumnDict([], map[])

  /** `{c.name : c for c in columns}` (xmlorm/orm.py:170). */
  function FromColumns(cs: seq<Column>): (d: ColumnDict)
    ensures d.WellFormed()
    ensures forall k :: k in d.entries <==> exists i :: 0 <= i < |cs| && cs[i].name == k
  {
    if cs == [] then EmptyDict
    else
      var front := FromColumns(cs[..|cs| - 1]);
      assert forall i :: 0 <= i < |cs| - 1 ==> cs[..|cs| - 1][i] == cs[i];
      front.Put(cs[|cs| - 1])
  }

  /** The value kept under a name is the LAST column declared with that name. */
  lemma {:induction false} FromColumnsLastWins(cs: seq<Column>, i: nat)
    requires i < |cs|
    requires forall j :: i < j < |cs| ==> cs[j].name != cs[i].name
    ensures cs[i].name in FromColumns(cs).entries
    ensures FromColumns(cs).entries[cs[i].name] == cs[i]
  {
    if i < |cs| - 1 {
      var front := cs[..|cs| - 1];
      forall j | i < j < |front| ensures front[j].name != front[i].name {
        assert front[j] == cs[j];
      }
      FromColumnsLastWins(front, i);
    }
  }

  /** A name keeps the position of its first declaration: declaring more columns
      only ever appends to the key order. */
  lemma {:induction false} FromColumnsOrderGrows(cs: seq<Column>, more: seq<Column>)
    ensures |FromColumns(cs).order| <= |FromColumns(cs + more).order|
    ensures FromColumns(cs + more).order[..|FromColumns(cs).order|] == FromColumns(cs).order
  {
    if more != [] {
      var front := more[..|more| - 1];
      assert (cs + more)[..|cs + more| - 1] == cs + front;
      assert cs + more != [];
      FromColumnsOrderGrows(cs, front);
    } else {
      assert cs + more == cs;
    }
  }

  /** With distinct names the dict holds the columns exactly as declared, in order. */
  lemma {:induction false} FromColumnsDistinct(cs: seq<Column>)
    requires forall i, j :: 0 <= i < j < |cs| ==> cs[i].name != cs[j].name
    ensures FromColumns(cs).Values() == cs
  {
    if cs != [] {
      var front := cs[..|cs| - 1];
      var last := cs[|cs| - 1];
      forall i, j | 0 <= i < j < |front| ensures front[i].name != front[j].name {
        assert front[i] == cs[i] && front[j] == cs[j];
      }
      FromColumnsDistinct(front);
      forall i | 0 <= i < |front| ensures front[i].name != last.name {
        assert front[i] == cs[i];
      }
      NotDeclared(front, last.name);
      PutNewValues(FromColumns(front), last);
      assert front + [last] == cs;
    }
  }

  lemma NotDeclared(cs: seq<Column>, name: string)
    requires forall i :: 0 <= i < |cs| ==> cs[i].name != name
    ensures name !in FromColumns(cs).entries
  {
  }

  /** Adding a new name appends its column to the values. */
  lemma PutNewValues(d: ColumnDict, c: Column)
    requires d.WellFormed() && c.name !in d.entries
    ensures d.Put(c).Values() == d.Values() + [c]
  {
    var e := d.Put(c);
    forall i | 0 <= i < |d.order| ensures e.Values()[i] == d.Values()[i] {
      assert d.order[i] in d.entries;
    }
  }
}
