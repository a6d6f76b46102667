# xmlorm table mapper, modelled in Dafny

xmlorm maps XML exports onto relational tables. A `Table` is declared from
`Column`s and optional key descriptors. Its constructor then checks what it was
given and adds columns:
- a `hash_id` primary key for a table with a hash key;
- a `parent_hash` column and a foreign key for a table nested inside a parent table.

The table renders its `create table` statement and finds its file through the
parent chain. It reads a parsed document into rows: one dict per record element, in
document order. Child rows are stamped with the hash of their parent element.

This project models `xmlorm/orm.py` as follows:

- `wrappers.dfy`: `Option` and `Result`. A Python exception becomes a `Failure`.
- `strings.dfy`: `sep.join`, `str.split` on one character, suffix tests and `str(int)`.
- `columns.dfy`: the four column types and `Column` with its rendering. It also
  has `ColumnDict`, the table's insertion-ordered dict from name to column.
  Assigning to an existing name replaces the value and keeps the first position.
- `xml.dfy`: the element tree and `findall` on a path of plain child tags.
- `rows.dfy`: what `read_row`, `get_hash_key`, `__read_parent` and
  `__read_child` compute, written as functions of a table's columns and a
  document. The lemmas say what those rows are.
- `orm.dfy`: `PrimaryKey`, `ForeignKey`, `Index`, the construction steps as
  functions, the DDL text, and `class Table`. The class's methods are the
  source's loops and in-place updates, each proved equal to the specifying
  function.

Some inputs stay abstract:
- SHA-256 (`sha256(...).hexdigest()` of the UTF-8 bytes) is a parameter
  `digest: string -> string`. The hash input is modelled exactly: `str(row[k])`
  for each hash-key column, concatenated in order.
- Python's `int(text)` and `float(text)` are a parameter `Numeric`. Its value is
  None where the conversion would raise `ValueError`.
- A float value is carried as its `str()` text.

`Table.__init__` can raise, so it is modelled by the static method
`Table.Create`. `Create` returns the new table or the error:
- `MissingTagName` for the `assert tag_name`;
- `HashKeyWithPrimaryKeyColumn` and `HashKeyWithPrimaryKey` for the two asserts
  of `__enforce_hashkey`;
- `ParentWithoutHashId` for the `KeyError` on `parent_table.columns["hash_id"]`.

The parent chain is acyclic by construction. A ghost `depth` drives the
recursion of `filename` and `build_tag_path`.

`__read_child` sets `parent_hash` on every row but never computes `hash_id`.
So the rows of a child table that has a hash key carry `hash_id = None`, unless
the element has a `hash_id` child. The model keeps this behaviour;
`Rows.ChildRowHashIdUnset` states it.

## Model

| member | source | states |
|---|---|---|
| Columns.ParseType | xmlorm/orm.py:95-109 | a keyword read back gives a type whose keyword it is |
| Columns.TypeSql | xmlorm/orm.py:95-109 | every type keyword is one non-empty word with no space, so a rendering can be split after it |
| Columns.TypeSqlRoundTrip | xmlorm/orm.py:95-109 | each type renders to its own keyword (integer, timestamp, real, text), so no two types share one |
| Columns.NewColumnDefaults | xmlorm/orm.py:119-128 | a column given only a name renders as "name text", with `primary_key=True` as "name text primary key" and with `not_null=True` as "name text not null" |
| Columns.ColumnSql | xmlorm/orm.py:125-128 | a column's rendering starts with its name and one space |
| Columns.ColumnSqlRoundTrip | xmlorm/orm.py:125-128 | given the column's name, the rendering "name type[ primary key][ not null]" reads back to the same column, so the flags appear exactly when set and in that order |
| Columns.ColumnDict.Put | xmlorm/orm.py:170 | dict assignment: the value is replaced, a new name is appended to the key order, an existing one keeps its place, and well-formedness is kept |
| Columns.ColumnDict.ValuesListEach | xmlorm/orm.py:193 | `values()` lists every column of the dict exactly once, in key order, each under its own name |
| Columns.FromColumns | xmlorm/orm.py:170 | the dict comprehension is well formed and its keys are exactly the declared names |
| Columns.FromColumnsLastWins | xmlorm/orm.py:170 | the value kept under a duplicated name is its last declaration |
| Columns.FromColumnsOrderGrows | xmlorm/orm.py:170 | declaring more columns only appends to the key order, so a name keeps its first position |
| Columns.FromColumnsDistinct | xmlorm/orm.py:170 | with distinct names, `values()` is the declared list exactly |
| Xml.FindAllExtend | xmlorm/orm.py:285-288 | the elements at parent path + "/" + tag are, in document order, the `tag` children of each element at the parent path |
| Rows.Cell | xmlorm/orm.py:271-273 | text None stays None; non-numeric columns keep the text; an Integer column holds `int(text)` and a Real column `float(text)`, and the cell fails exactly when that conversion rejects the text, with an error naming the tag and text |
| Rows.RowFrom | xmlorm/orm.py:268-275 | a row that is read has exactly the table's column names as keys |
| Rows.ReadRow | xmlorm/orm.py:263-275 | a row read from an element has exactly the table's column names as keys |
| Rows.RowFromValue | xmlorm/orm.py:269-274 | a column's value is None when no child has its tag, else the converted text of the last child with its tag; other children play no part |
| Rows.RowFromFails | xmlorm/orm.py:272-273 | `read_row` fails if and only if some child naming a column has text its conversion rejects |
| Rows.HashInput | xmlorm/orm.py:252-260 | building the hash input fails only with a KeyError for a hash-key column missing from the row |
| Rows.HashKey | xmlorm/orm.py:252-260 | `get_hash_key` succeeds when every hash-key column is in the row, and otherwise fails with the KeyError of a missing one |
| Rows.HashInputAgrees | xmlorm/orm.py:252-260 | the hash depends on the row only through `str()` of the hash-key columns |
| Rows.HashInputFails | xmlorm/orm.py:254-259 | hashing fails if and only if a hash-key column is missing from the row, and the error names the first missing key |
| Rows.RootRow | xmlorm/orm.py:302-305 | a root row holds the columns, plus `hash_id` exactly when a hash key is set |
| Rows.RootRows | xmlorm/orm.py:295-307 | a successful root read gives one row per element |
| Rows.RootRowsAt | xmlorm/orm.py:299-307 | a root read succeeds if and only if every element's row does, and then gives one row per element, in order |
| Rows.RootRowHashId | xmlorm/orm.py:302-305 | with a hash key set, a root row has the columns plus `hash_id` equal to the digest of its `read_row`; without one, exactly the columns |
| Rows.ChildRow | xmlorm/orm.py:289-290 | a child row holds the columns plus `parent_hash`, and `parent_hash` is the parent's hash |
| Rows.ChildRowsUnder | xmlorm/orm.py:288-291 | the rows under one parent are one per child element |
| Rows.ChildRows | xmlorm/orm.py:277-293 | a successful child read gives one row per child element matched under the parents |
| Rows.ChildRowHashIdUnset | xmlorm/orm.py:289-290 | a child row has the columns plus `parent_hash` set to its parent's hash; its `hash_id` stays None without a `hash_id` child |
| Rows.ChildRowsUnderAt | xmlorm/orm.py:288-291 | the rows under one parent are one per child element, in order, each stamped with the parent's hash |
| Rows.ChildRowsAt | xmlorm/orm.py:284-293 | a child read is parent-major, child-minor: the row of child j of parent i is at Offset(i)+j, and there is one row per matched child element |
| Rows.ParentHashIsHashId | xmlorm/orm.py:277-307 | under a root parent table, each child row's `parent_hash` equals the `hash_id` of the row read from the same parent element |
| Rows.ChildRowsCarryParentHashId | xmlorm/orm.py:277-307 | under a root parent table with a hash key, every child row has a `parent_hash`, and it equals the `hash_id` of some row of the parent read |
| Orm.PrimaryKeySqlRoundTrip | xmlorm/orm.py:353-355 | "primary key (a,b,...)" reads back to the same column names when there is at least one name and no name holds a comma |
| Orm.PrimaryKeyEmptyAmbiguous | xmlorm/orm.py:353-355 | a key over no columns and a key over one empty name both render as "primary key ()", so the round trip needs at least one name |
| Orm.PrimaryKeySql | xmlorm/orm.py:353-355 | the rendering opens with "primary key (" and closes with ")" |
| Orm.ForeignKeySql | xmlorm/orm.py:340-343 | the rendering ends with the referenced column in brackets |
| Orm.ParseReference | xmlorm/orm.py:340-343 | a reference is read back only from text that renders it: head, key name, middle, table, opening bracket, column and ")" |
| Orm.ParseReferenceOf | xmlorm/orm.py:340-343 | a reference whose key name holds no ")" and whose column name holds no "(" reads back to its key name, table and column |
| Orm.ForeignKeySqlRoundTrip | xmlorm/orm.py:340-343 | when the key name holds no ")" and the column name no "(", "foreign key (n) references t (c)" reads back to the key name, the table name and the column name |
| Orm.IndexSql | xmlorm/orm.py:368-373 | the statement ends with ");" and starts with "create unique " exactly when the index is unique |
| Orm.ParseIndexHead | xmlorm/orm.py:368-371 | the keywords are read back only from text that starts with them, and say whether the index is unique |
| Orm.IndexSqlRoundTrip | xmlorm/orm.py:368-373 | an index statement reads back to its uniqueness, index name, table name and column names, when the index name has no space, there is at least one column, and the column names hold no "," or "(" |
| Orm.HashKeyStep | xmlorm/orm.py:209-224 | construction fails if and only if a hash key is set without a primary-key `hash_id`, while some column is a primary key or a PrimaryKey is given; otherwise, when `hash_id` is absent, the dict gains exactly `hash_id` (text primary key not null), appended last, and nothing else changes |
| Orm.ParentHashStep | xmlorm/orm.py:226-237 | a child table without a primary-key `parent_hash` gets exactly one more foreign key, to the parent's `hash_id`, with earlier keys kept in order; its dict is the old one with `parent_hash` (text not null) assigned, appended last when new; it fails if and only if the parent has no `hash_id` |
| Orm.BuildSchema | xmlorm/orm.py:159-178 | a child table without a tag name fails; a built child table has `parent_hash`, and a hashed table has `hash_id` |
| Orm.ColumnLinesRead | xmlorm/orm.py:193 | each column line is two spaces and a rendering that, given the column's name, reads back as that column |
| Orm.Present | xmlorm/orm.py:199-201 | the foreign keys that are not None, and all of them |
| Orm.PresentAppend | xmlorm/orm.py:199-201 | the keys of a concatenated tuple are the keys of the first part followed by those of the second |
| Orm.PresentSingle | xmlorm/orm.py:199-201 | a single entry contributes its key, or nothing when it is None |
| Orm.ForeignKeyClauseRoundTrip | xmlorm/orm.py:199-201 | when the key name holds no ")" and the column name no "(", the clause " foreign key(n) references t(c)" reads back to the key name, the table name and the column name |
| Orm.ForeignKeyClausesRead | xmlorm/orm.py:199-201 | when no key name holds ")" and no column name "(", every clause of the list reads back to the key it renders, in order |
| Orm.Ddl | xmlorm/orm.py:192-207 | the intended statement opens with "create table if not exists <name> (" and closes with ");" |
| Orm.DdlAsWritten | xmlorm/orm.py:192-207 | the statement as written has the same opening and close |
| Orm.DdlAsWrittenShape | xmlorm/orm.py:204-207 | a given primary key is the last clause of the statement as written |
| Orm.DdlAsWrittenAgrees | xmlorm/orm.py:192-207 | the statement as written equals the intended one if and only if: with columns, the key tuple is empty or holds a key that is not None; without columns, there is neither a key tuple nor a primary key |
| Orm.NoneKeysDdl | xmlorm/orm.py:197-207 | a non-empty key tuple of Nones leaves ",\n" dangling after the columns: in front of ",\nprimary key (...)" when a primary key is given, and before the closing ");" when none is |
| Orm.NoneKeysIntended | xmlorm/orm.py:192-207 | for such a table with at least one column, the intended statement puts a given primary key right after the columns and closes after it, or closes right after the columns when there is no primary key |
| Orm.NoColumnsDdl | xmlorm/orm.py:193-205 | without columns or keys, a primary key is written after a leading ",\n" |
| Orm.NoColumnsIntended | xmlorm/orm.py:192-207 | the intended statement for such a table opens its clause list with the primary key |
| Orm.DdlDanglingSeparator | xmlorm/orm.py:197-201 | one text column and the key tuple (None,) give "...(  a text,\n);" as written |
| Orm.DdlNoneKeyIntended | xmlorm/orm.py:192-207 | the intended statement for the same table is "...(  a text);" |
| Orm.DdlNoColumnsSeparator | xmlorm/orm.py:193-205 | no columns, no keys and a primary key on "a" give "...(,\nprimary key (a));" as written |
| Orm.DdlNoColumnsIntended | xmlorm/orm.py:192-207 | the intended statement for the same table is "...(primary key (a));" |
| Orm.Table.BuildColumns | xmlorm/orm.py:170 | the loop of assignments builds exactly the dict comprehension FromColumns |
| Orm.Table.Init | xmlorm/orm.py:159-176 | the arguments are stored, the file name is "<name>.xml" on a root table and None on a child, and the column dict is the comprehension over the declared columns |
| Orm.Table.EnforceHashKey | xmlorm/orm.py:209-224 | the loop over the columns gives HashKeyStep's result, and on an error the columns are unchanged |
| Orm.Table.EnforceParentHash | xmlorm/orm.py:226-237 | gives ParentHashStep's result; on the KeyError, `parent_hash` has already been written and the foreign keys are unchanged |
| Orm.Table.Create | xmlorm/orm.py:159-178 | fails exactly as BuildSchema does; otherwise a fresh valid table whose columns and foreign keys are BuildSchema's |
| Orm.Table.Filename | xmlorm/orm.py:180-184 | every table's file name is the one stored on the root of its parent chain |
| Orm.Table.SetFilename | xmlorm/orm.py:186-189 | on a root table the file name becomes the new value; on a child nothing changes |
| Orm.Table.BuildTagPath | xmlorm/orm.py:239-250 | the tag path is the root's top tag followed by each tag name set along the chain, joined with "/" |
| Orm.Table.Sql | xmlorm/orm.py:192-207 | the table's DDL text as the source writes it: it opens with the "create table if not exists" head, closes with ");", ends in a given primary key, and is the intended statement exactly when DdlAgrees holds |
| Orm.Table.ReadRow | xmlorm/orm.py:263-275 | the loop over the children computes Rows.ReadRow, first error included |
| Orm.Table.GetHashKey | xmlorm/orm.py:252-260 | the loop over the hash-key columns computes the digest of their concatenated `str()` values, or the missing key |
| Orm.Table.ReadRootRow | xmlorm/orm.py:302-305 | one iteration of the root read: `read_row`, then `hash_id` when a hash key is set |
| Orm.Table.ReadParent | xmlorm/orm.py:295-307 | the loop computes the root rows of the elements at the table's tag path |
| Orm.Table.ReadChildrenOf | xmlorm/orm.py:288-291 | the inner loop computes the rows under one parent element |
| Orm.Table.ReadOneParent | xmlorm/orm.py:285-291 | one outer iteration: the parent's row, its hash, then the rows under it |
| Orm.Table.ReadChild | xmlorm/orm.py:277-293 | fails when the parent has no hash key; otherwise computes the child rows over the parent elements, in order |
| Orm.Table.ReadTable | xmlorm/orm.py:310-324 | a child table reads as a child, a root table as a root |
| Orm.Table.ChildRowsFollowTagPath | xmlorm/orm.py:280-288 | a child read gives exactly one row per element at the child table's own tag path |
| Orm.Table.ChildRowsPointAtParentRows | xmlorm/orm.py:310-324 | for a child of a root table, every row `read_table` gives for the child carries as `parent_hash` the `hash_id` of a row `read_table` gives for the parent |

## Left out

- Reading files is not modelled. This covers `ElementTree.parse` and the
  `f"{data_dir}/{self.filename}"` path in `read_table`. The methods take the
  parsed root element instead.
- The internals of SHA-256 and the UTF-8 encoding are a `digest` parameter.
- The `print(row[key])` diagnostic in `get_hash_key` is output only and is left out.
- `findall` is modelled only for slash-separated plain tags. Other XPath syntax
  is library behaviour.
- The parsing done by `int(...)` and `float(...)` is a `Numeric` parameter, and
  floats are carried as their text.
- `ColumnType`, `Char(n)` and `Varchar(n)` are imported by the tests but do
  not exist in `xmlorm/orm.py`, so they are not modelled.
- The iterables given to `Table` are sequences, and `fkeys=None` is the empty sequence.
- Python truthiness is written out. A `Table` and a `PrimaryKey` object are
  always true. A hash key is set when it is given and non-empty. A tag name is
  given when it is present and non-empty.
- Row dicts are maps. Their key order is the column order plus the added keys,
  and it is not modelled.
- `ForeignKey.__str__` and `PrimaryKey.__str__` are the same as `__repr__`.
- `TOP_LEVEL_TAG` (xmlorm/orm.py:93) is a default for callers and is not used by the core.
- The `Table` docstring (xmlorm/orm.py:145-151) says a declared `hash_id`
  column raises `InvalidColumnName`. The code never raises it:
  `__enforce_hashkey` accepts a declared primary-key `hash_id` as it is and
  keeps a declared `hash_id` that is not a key, and so does Orm.HashKeyStep.
- The `Table` docstring (xmlorm/orm.py:152-155) says `tag_name` defaults to the
  table name. The code asserts instead that a child table has a tag name, and
  Orm.BuildSchema fails with `MissingTagName`.
- Orm.Table.GetHashKey: requires the hash key to be present. The source only
  calls it then; on None, Python would raise a `TypeError`.
- Orm.Table.Create: requires the parent to be a table built by `Create`,
  because every `Table` passes through `__init__`.

## Findings

| source | as written | input that shows it | evidently intended | confidence | as-written member | corrected member |
|---|---|---|---|---|---|---|
| xmlorm/orm.py:197-201 | `",\n"` is appended whenever `len(self.foreign_keys) > 0`, although None entries are then skipped | a table "t" with one text column "a", no primary key, and `fkeys=[None]` renders `create table if not exists t (  a text,\n);` | a separator only in front of a clause that follows it: `create table if not exists t (  a text);` | medium, not executed | Orm.DdlAsWritten, with Orm.NoneKeysDdl and Orm.DdlDanglingSeparator | Orm.Ddl, with Orm.NoneKeysIntended and Orm.DdlAsWrittenAgrees |
| xmlorm/orm.py:193-205 | the separators in front of the keys and of the primary key are written even when no column precedes them | a table "t" with no columns, no keys and `pkey=PrimaryKey(["a"])` renders `create table if not exists t (,\nprimary key (a));` | the clause list starts with its first clause: `create table if not exists t (primary key (a));` | low, not executed | Orm.DdlAsWritten, with Orm.NoColumnsDdl and Orm.DdlNoColumnsSeparator | Orm.Ddl, with Orm.NoColumnsIntended and Orm.DdlAsWrittenAgrees |

`Orm.Table.Sql` gives the text the source writes, `Orm.DdlAsWritten`. It does
not switch to the corrected statement, because `__repr__` is what callers run.
Its contract says exactly when the source's text is the corrected statement
`Orm.Ddl`, which is `Orm.DdlAgrees`.
