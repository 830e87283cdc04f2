/**
 The column-list logic of the Optimus dataframe helpers. A dataframe is seen
 only through its sequence of column names, in schema order; everything that
 the host engine computes (select, cast, withColumn) is left to it, and an
 operation here yields the column list, or the column expressions, that it
 hands to the engine.
 */
module Optimus {
  import opened Lists

  /** The exceptions the helpers raise, named after the Python ones. */
  datatype Error =
    | ColumnsNotFound(missing: seq<string>)  // raised by the name check for names the dataframe lacks
    | AssertionError(message: string)
    | TypeError
    | IndexError
    | KeyError(key: string)
    | NameError(name: string)

  datatype Result<T> = Ok(value: T) | Err(error: Error)

  /** A column argument: one name, or a list of names. */
  datatype ColumnsArg = Name(name: string) | Names(names: seq<string>)

  const OneColumnMessage := "Error: Columns must be a string or a list of one element"
  const TupleMessage := "Error: Column argument must be a tuple(s)"

  /** The argument as a list of names: a single name becomes a one-element list. */
  function AsList(arg: ColumnsArg): (r: seq<string>)
  {
    match arg
    case Name(n) => [n]
    case Names(ns) => ns
  }

  // ---------------------------------------------------------------------------
  // Column-argument normalisation
  // ---------------------------------------------------------------------------

  /**
   The name check every helper starts with: the argument as a list, provided
   every name in it is a column of the dataframe.
   */
  function AssertColumnsNames(df: seq<string>, arg: ColumnsArg): (r: Result<seq<string>>)
    ensures r.Ok? <==> forall c :: c in AsList(arg) ==> c in df
    ensures r.Ok? ==> r.value == AsList(arg)
    ensures r.Err? ==> r.error.ColumnsNotFound? && r.error.missing != []
    ensures r.Err? ==> forall c :: c in r.error.missing <==> c in AsList(arg) && c !in df
  {
    var missing := Excluding(AsList(arg), df);
    if missing == [] then Ok(AsList(arg))
    else
      assert missing[0] in missing;
      Err(ColumnsNotFound(missing))
  }

  /** `parse_columns`: "*" stands for every column, in schema order; anything else is name-checked. */
  function ParseColumns(df: seq<string>, columns: ColumnsArg): (r: Result<seq<string>>)
    ensures columns == Name("*") ==> r == Ok(df)
    ensures columns != Name("*") ==> (r.Ok? <==> forall c :: c in AsList(columns) ==> c in df)
    ensures columns != Name("*") && r.Ok? ==> r.value == AsList(columns)
    ensures r.Ok? ==> forall c :: c in r.value ==> c in df
  {
    if columns == Name("*") then Ok(df)
    else AssertColumnsNames(df, columns)
  }

  /**
   An element of a list of column pairs. Only the first element of the list is
   checked to be a tuple; a later one may be a plain string, whose components
   are then its characters.
   */
  datatype Entry = Tuple(items: seq<string>) | Text(chars: string)

  function Length(e: Entry): (n: nat)
  {
    match e
    case Tuple(items) => |items|
    case Text(chars) => |chars|
  }

  /** `e[i]`: a tuple's item or a string's character, or IndexError past the end. */
  function Component(e: Entry, i: nat): (r: Result<string>)
    ensures r.Ok? <==> i < Length(e)
    ensures r.Err? ==> r.error == IndexError
  {
    if i >= Length(e) then Err(IndexError)
    else match e
      case Tuple(items) => Ok(items[i])
      case Text(chars) => Ok([chars[i]])
  }

  /** `[c[0] for c in entries]`, failing at the first entry that has no component. */
  function FirstComponents(entries: seq<Entry>): (r: Result<seq<string>>)
    ensures r.Ok? <==> forall k :: 0 <= k < |entries| ==> Length(entries[k]) > 0
    ensures r.Err? ==> r.error == IndexError
    ensures r.Ok? ==> |r.value| == |entries|
    ensures r.Ok? ==> forall k :: 0 <= k < |entries| ==> Component(entries[k], 0) == Ok(r.value[k])
  {
    if entries == [] then Ok([])
    else match (Component(entries[0], 0), FirstComponents(entries[1..]))
      case (Err(e), _) => Err(e)
      case (_, Err(e)) => Err(e)
      case (Ok(c), Ok(cs)) => Ok([c] + cs)
  }

  /**
   `_check_columns_tuples`: the first element must be a tuple; the result is
   the first component of every element, in order, name-checked.
   */
  function CheckColumnsTuples(df: seq<string>, pairs: seq<Entry>): (r: Result<seq<string>>)
    ensures |pairs| == 0 ==> r == Err(IndexError)
    ensures |pairs| > 0 && !pairs[0].Tuple? ==> r == Err(AssertionError(TupleMessage))
    ensures |pairs| > 0 && pairs[0].Tuple? && FirstComponents(pairs).Err? ==> r == Err(IndexError)
    ensures |pairs| > 0 && pairs[0].Tuple? && FirstComponents(pairs).Ok? && r.Err? ==>
              r == Err(ColumnsNotFound(Excluding(FirstComponents(pairs).value, df)))
    ensures r.Ok? <==> |pairs| > 0 && pairs[0].Tuple? && FirstComponents(pairs).Ok?
                       && forall c :: c in FirstComponents(pairs).value ==> c in df
    ensures r.Ok? ==> |r.value| == |pairs|
    ensures r.Ok? ==> forall k :: 0 <= k < |pairs| ==> Component(pairs[k], 0) == Ok(r.value[k]) && r.value[k] in df
  {
    if |pairs| == 0 then Err(IndexError)
    else if !pairs[0].Tuple? then Err(AssertionError(TupleMessage))
    else match FirstComponents(pairs)
      case Err(e) => Err(e)
      case Ok(columns) => AssertColumnsNames(df, Names(columns))
  }

  // ---------------------------------------------------------------------------
  // move_col
  // ---------------------------------------------------------------------------

  /**
   The value `find_col` compares each column name with. Python never finds a
   string equal to a list, so a list key matches nothing.
   */
  datatype Key = StrKey(s: string) | ListKey(names: seq<string>)

  predicate Matches(c: string, key: Key)
  {
    key.StrKey? && key.s == c
  }

  /** `find_col`: the indices of the columns equal to `key`, in increasing order. */
  function FindCol(columns: seq<string>, key: Key): (r: seq<nat>)
    ensures forall k :: 0 <= k < |r| ==> r[k] < |columns| && Matches(columns[r[k]], key)
    ensures forall i :: 0 <= i < |columns| && Matches(columns[i], key) ==> i in r
    ensures forall k, l :: 0 <= k < l < |r| ==> r[k] < r[l]
  {
    FindFrom(columns, key, 0)
  }

  function FindFrom(columns: seq<string>, key: Key, start: nat): (r: seq<nat>)
    requires start <= |columns|
    ensures forall k :: 0 <= k < |r| ==> start <= r[k] < |columns| && Matches(columns[r[k]], key)
    ensures forall i :: start <= i < |columns| && Matches(columns[i], key) ==> i in r
    ensures forall k, l :: 0 <= k < l < |r| ==> r[k] < r[l]
    decreases |columns| - start
  {
    if start == |columns| then []
    else (if Matches(columns[start], key) then [start] else []) + FindFrom(columns, key, start + 1)
  }

  /** The first index `find_col` reports for a name is the name's first position. */
  lemma FindColFirst(columns: seq<string>, name: string)
    requires name in columns
    ensures FindCol(columns, StrKey(name)) != []
    ensures FindCol(columns, StrKey(name))[0] == IndexOf(columns, name)
  {
  }

  /** `find_col` as written is handed a list, and so never finds anything. */
  lemma FindColWithListFindsNothing(columns: seq<string>, names: seq<string>)
    ensures FindCol(columns, ListKey(names)) == []
  {
    FindFromWithListFindsNothing(columns, names, 0);
  }

  lemma {:induction false} FindFromWithListFindsNothing(columns: seq<string>, names: seq<string>, start: nat)
    requires start <= |columns|
    ensures FindFrom(columns, ListKey(names), start) == []
    decreases |columns| - start
  {
    if start < |columns| {
      FindFromWithListFindsNothing(columns, names, start + 1);
    }
  }

  /** The arguments of `move_col` once they have passed its checks. */
  datatype MoveArgs = MoveArgs(column: string, refNames: seq<string>, after: bool)

  /**
   The checks that open `move_col`, in their order: the column exists and is
   exactly one, the reference columns exist, and the position is 'after' or
   'before'. A failed position check raises TypeError rather than
   AssertionError, because the assertion's message applies `%` to a string
   with no placeholder.
   */
  function ValidateMove(df: seq<string>, column: ColumnsArg, refCol: ColumnsArg, position: string): (r: Result<MoveArgs>)
    ensures r.Ok? <==> (forall c :: c in AsList(column) ==> c in df) && |AsList(column)| == 1
                       && (forall c :: c in AsList(refCol) ==> c in df)
                       && (position == "after" || position == "before")
    ensures r.Ok? ==> r.value == MoveArgs(AsList(column)[0], AsList(refCol), position == "after")
    ensures (exists c :: c in AsList(column) && c !in df) ==> r == Err(ColumnsNotFound(Excluding(AsList(column), df)))
    ensures (forall c :: c in AsList(column) ==> c in df) && |AsList(column)| != 1 ==> r == Err(AssertionError(OneColumnMessage))
    ensures r.Err? ==> r.error.ColumnsNotFound? || r.error.AssertionError? || r.error == TypeError
    ensures r.Err? && r.error.AssertionError? <==> (forall c :: c in AsList(column) ==> c in df) && |AsList(column)| != 1
    // a missing reference name, once the column itself has passed
    ensures ((forall c :: c in AsList(column) ==> c in df) && |AsList(column)| == 1
             && exists c :: c in AsList(refCol) && c !in df) ==>
              r == Err(ColumnsNotFound(Excluding(AsList(refCol), df)))
    ensures r.Err? && r.error == TypeError <==>
              (forall c :: c in AsList(column) ==> c in df) && |AsList(column)| == 1
              && (forall c :: c in AsList(refCol) ==> c in df)
              && position != "after" && position != "before"
  {
    match AssertColumnsNames(df, column)
    case Err(e) => Err(e)
    case Ok(names) =>
      if |names| != 1 then Err(AssertionError(OneColumnMessage))
      else match AssertColumnsNames(df, refCol)
        case Err(e) => Err(e)
        case Ok(refNames) =>
          if position != "after" && position != "before" then Err(TypeError)
          else Ok(MoveArgs(names[0], refNames, position == "after"))
  }

  /**
   Where `move_col` puts a column asked to go before itself: it trades places
   with its left neighbour, and a first column goes to just before the last.
   */
  function MovedBeforeItself(s: seq<string>, o: nat): (r: seq<string>)
    requires o < |s|
  {
    if o > 0 then s[..o - 1] + [s[o], s[o - 1]] + s[o + 1..]
    else if |s| > 1 then s[1..|s| - 1] + [s[0], s[|s| - 1]]
    else s
  }

  /** Popping a column and inserting it back at the same index restores the list. */
  lemma PopInsertSameIndex(s: seq<string>, o: nat)
    requires o < |s|
    ensures InsertedAt(RemovedAt(s, o), o, s[o]) == s
  {
  }

  /** `insert(o - 1, pop(o))`, the branch taken when a column is moved before itself. */
  lemma PopInsertBeforeItself(s: seq<string>, o: nat)
    requires o < |s|
    ensures InsertedAt(RemovedAt(s, o), o - 1, s[o]) == MovedBeforeItself(s, o)
  {
    var p := RemovedAt(s, o);
    var r := InsertedAt(p, o - 1, s[o]);
    var m := MovedBeforeItself(s, o);
    assert |r| == |m|;
    if o > 0 {
      forall k | 0 <= k < |r| ensures r[k] == m[k] {
        if k == o {
          assert r[o] == p[o - 1];
        } else if k > o {
          assert r[k] == p[k - 1];
        }
      }
    } else if |s| > 1 {
      forall k | 0 <= k < |r| ensures r[k] == m[k] {
        if k < |s| - 2 {
          assert r[k] == p[k];
        } else if k == |s| - 1 {
          assert r[k] == p[k - 1];
        }
      }
    } else {
      assert r == [s[0]];
    }
  }

  /** The index `move_col` passes to `insert`, from the reference's index `t` and the moved column's `o`. */
  function InsertIndex(after: bool, t: nat, o: nat): (i: int)
    // for a different reference the index is within the popped list, so no clamping happens
    ensures t != o ==> 0 <= i <= (if t > o then t else o)
    // only a column moved before itself is given o - 1, which is -1 at index 0
    ensures t == o ==> i == if after then o else o - 1
  {
    if after then (if t >= o then t else t + 1)
    else (if t >= o then t - 1 else t)
  }

  /** `s.insert(i, s.pop(o))`. */
  function Spliced(s: seq<string>, o: nat, i: int): (r: seq<string>)
    requires o < |s|
    ensures |r| == |s| && multiset(r) == multiset(s)
    ensures r[InsertionPoint(|s| - 1, i)] == s[o]
    ensures Excluding(r, [s[o]]) == Excluding(s, [s[o]])
  {
    ReinsertKeepsOthers(s, o, i);
    InsertedAt(RemovedAt(s, o), i, s[o])
  }

  /**
   The four branches of `move_col` put the column at `o` right after (or
   before) the one at `t`; moved relative to itself, it stays put after and
   takes the quirky place before.
   */
  lemma SplicePlacesColumn(s: seq<string>, t: nat, o: nat, after: bool)
    requires t < |s| && o < |s|
    ensures after && t != o ==> Adjacent(Spliced(s, o, InsertIndex(after, t, o)), s[t], s[o])
    ensures !after && t != o ==> Adjacent(Spliced(s, o, InsertIndex(after, t, o)), s[o], s[t])
    ensures after && t == o ==> Spliced(s, o, InsertIndex(after, t, o)) == s
    ensures !after && t == o ==> Spliced(s, o, InsertIndex(after, t, o)) == MovedBeforeItself(s, o)
  {
    var p := RemovedAt(s, o);
    var r := Spliced(s, o, InsertIndex(after, t, o));
    if after && t > o {
      assert r[t - 1] == p[t - 1] == s[t] && r[t] == s[o];
    } else if after && t < o {
      assert r[t] == p[t] == s[t] && r[t + 1] == s[o];
    } else if !after && t > o {
      assert r[t - 1] == s[o] && r[t] == p[t - 1] == s[t];
    } else if !after && t < o {
      assert r[t] == s[o] && r[t + 1] == p[t] == s[t];
    } else if after {
      PopInsertSameIndex(s, o);
    } else {
      PopInsertBeforeItself(s, o);
    }
  }

  /**
   The four branches of `move_col` that pop the column at `o` and insert it
   next to the reference at `t`, each with its own index.
   */
  method SpliceColumn(columns: seq<string>, t: nat, o: nat, after: bool) returns (r: seq<string>)
    requires t < |columns| && o < |columns|
    ensures r == Spliced(columns, o, InsertIndex(after, t, o))
  {
    // every branch pops the moved column first
    var moved := columns[o];
    var popped := RemovedAt(columns, o);
    if after {
      if t >= o {
        r := InsertedAt(popped, t, moved);
      } else {
        r := InsertedAt(popped, t + 1, moved);
      }
    } else {
      if t >= o {
        r := InsertedAt(popped, t - 1, moved);
      } else if t < o {
        r := InsertedAt(popped, t, moved);
      }
    }
  }

  /**
   `move_col` with the column and the reference read as single names (the
   source compares each column with the whole list; see MoveColAsWritten).
   The resulting column order is what `self[columns]` selects.
   */
  method MoveCol(df: seq<string>, column: ColumnsArg, refCol: ColumnsArg, position: string) returns (r: Result<seq<string>>)
    ensures ValidateMove(df, column, refCol, position).Err? ==> r == Err(ValidateMove(df, column, refCol, position).error)
    ensures ValidateMove(df, column, refCol, position).Ok? && AsList(refCol) == [] ==> r == Err(IndexError)
    ensures r.Ok? <==> ValidateMove(df, column, refCol, position).Ok? && AsList(refCol) != []
    ensures position != "after" && position != "before" ==> r.Err?
    ensures |AsList(column)| != 1 ==> r.Err?
    ensures r.Ok? ==> |AsList(column)| == 1 && |AsList(refCol)| > 0 && AsList(column)[0] in df
    // the result is a rearrangement of the columns
    ensures r.Ok? ==> multiset(r.value) == multiset(df)
    // the columns that are not moved keep their relative order
    ensures r.Ok? ==> Excluding(r.value, [AsList(column)[0]]) == Excluding(df, [AsList(column)[0]])
    // the moved column lands right next to the reference
    ensures r.Ok? && position == "after" && AsList(column)[0] != AsList(refCol)[0] ==>
              Adjacent(r.value, AsList(refCol)[0], AsList(column)[0])
    ensures r.Ok? && position == "before" && AsList(column)[0] != AsList(refCol)[0] ==>
              Adjacent(r.value, AsList(column)[0], AsList(refCol)[0])
    // a column moved relative to itself
    ensures r.Ok? && position == "after" && AsList(column)[0] == AsList(refCol)[0] ==> r.value == df
    ensures r.Ok? && position == "before" && AsList(column)[0] == AsList(refCol)[0] ==>
              r.value == MovedBeforeItself(df, IndexOf(df, AsList(column)[0]))
  {
    var args := ValidateMove(df, column, refCol, position);
    if args.Err? {
      return Err(args.error);
    }
    var name, refNames := args.value.column, args.value.refNames;
    if refNames == [] {
      // ref_col[0] of an empty list
      return Err(IndexError);
    }
    var ref := refNames[0];
    assert name in AsList(column) && ref in AsList(refCol);
    // self.columns is a fresh list, which is then spliced in place
    var columns := df;
    var newIndex := FindCol(columns, StrKey(ref));
    var oldIndex := FindCol(columns, StrKey(name));
    FindColFirst(columns, ref);
    FindColFirst(columns, name);
    var t, o := newIndex[0], oldIndex[0];
    columns := SpliceColumn(columns, t, o, args.value.after);
    SplicePlacesColumn(df, t, o, args.value.after);
    assert df[o] == name == AsList(column)[0] && df[t] == ref == AsList(refCol)[0];
    r := Ok(columns);
  }


  /**
   `move_col` as the source has it: `find_col` compares every column name with
   the one-element list `column` (and with the list `ref_col`), finds nothing,
   and `new_index[0]` raises IndexError. Every call that passes the checks fails.
   */
  method MoveColAsWritten(df: seq<string>, column: ColumnsArg, refCol: ColumnsArg, position: string) returns (r: Result<seq<string>>)
    ensures r.Err?
    ensures ValidateMove(df, column, refCol, position).Err? ==> r == Err(ValidateMove(df, column, refCol, position).error)
    ensures ValidateMove(df, column, refCol, position).Ok? ==> r == Err(IndexError)
  {
    var args := ValidateMove(df, column, refCol, position);
    if args.Err? {
      return Err(args.error);
    }
    var columns := df;
    var newIndex := FindCol(columns, ListKey(args.value.refNames));
    var oldIndex := FindCol(columns, ListKey([args.value.column]));
    FindColWithListFindsNothing(columns, args.value.refNames);
    // new_index[0] of an empty list
    assert newIndex == [];
    r := Err(IndexError);
  }

  // ---------------------------------------------------------------------------
  // astype
  // ---------------------------------------------------------------------------

  /** The engine's column types that `astype` can cast to. */
  datatype SparkType = StringType | IntegerType | FloatType | DoubleType

  /** `dict_types`: canonical name to engine type. */
  const DictTypes: map<string, SparkType> :=
    map["string" := StringType, "str" := StringType, "integer" := IntegerType, "int" := IntegerType,
        "float" := FloatType, "double" := DoubleType, "Double" := DoubleType]

  /** `types`: the name a user writes to its canonical name. */
  const Types: map<string, string> :=
    map["string" := "string", "str" := "string", "String" := "string", "integer" := "int",
        "int" := "int", "float" := "float", "double" := "double", "Double" := "double"]

  /** Every canonical name is a key of `dict_types`, so the second lookup never fails. */
  lemma CanonicalNamesResolve()
    ensures forall n :: n in Types ==> Types[n] in DictTypes
  {
  }

  /** `dict_types[types[name]]`, a KeyError for a name the first table lacks. */
  function ResolveType(name: string): (r: Result<SparkType>)
    ensures r == Ok(StringType) <==> name == "str" || name == "string" || name == "String"
    ensures r == Ok(IntegerType) <==> name == "int" || name == "integer"
    ensures r == Ok(DoubleType) <==> name == "double" || name == "Double"
    ensures r == Ok(FloatType) <==> name == "float"
    ensures r.Err? ==> r == Err(KeyError(name))
  {
    if name !in Types then Err(KeyError(name))
    else
      CanonicalNamesResolve();
      Ok(DictTypes[Types[name]])
  }

  /** An output column of `astype`: a cast of a named column, or a column taken over unchanged. */
  datatype OutputColumn = Cast(name: string, to: SparkType) | Kept(name: string)

  /** An entry `astype` can turn into a cast: it has a second component naming a known type. */
  predicate Castable(e: Entry)
  {
    Length(e) >= 2 && ResolveType(Component(e, 1).value).Ok?
  }

  /** The cast expressions, one per entry in order, failing at the first bad entry. */
  function CastColumns(entries: seq<Entry>): (r: Result<seq<OutputColumn>>)
    ensures r.Ok? <==> forall k :: 0 <= k < |entries| ==> Castable(entries[k])
    ensures r.Err? ==> r.error == IndexError || r.error.KeyError?
    ensures r.Ok? ==> |r.value| == |entries|
    ensures r.Ok? ==> forall k :: 0 <= k < |entries| ==>
              r.value[k] == Cast(Component(entries[k], 0).value, ResolveType(Component(entries[k], 1).value).value)
  {
    if entries == [] then Ok([])
    else
      var e := entries[0];
      var head :=
        if Length(e) < 2 then Err(IndexError)
        else match ResolveType(Component(e, 1).value)
          case Err(err) => Err(err)
          case Ok(t) => Ok(Cast(Component(e, 0).value, t));
      match (head, CastColumns(entries[1..]))
      case (Err(err), _) => Err(err)
      case (_, Err(err)) => Err(err)
      case (Ok(c), Ok(cs)) => Ok([c] + cs)
  }

  function KeptColumns(names: seq<string>): (r: seq<OutputColumn>)
  {
    seq(|names|, k requires 0 <= k < |names| => Kept(names[k]))
  }

  function OutputNames(out: seq<OutputColumn>): (r: seq<string>)
  {
    seq(|out|, k requires 0 <= k < |out| => out[k].name)
  }

  /** The cast columns carry the pairs' first components as their names. */
  lemma OutputNamesOfCasts(entries: seq<Entry>, casts: seq<OutputColumn>, columns: seq<string>, rest: seq<string>)
    requires CastColumns(entries) == Ok(casts)
    requires |columns| == |entries|
    requires forall k :: 0 <= k < |entries| ==> Component(entries[k], 0) == Ok(columns[k])
    ensures OutputNames(casts + KeptColumns(rest)) == columns + rest
  {
    var names := OutputNames(casts);
    forall k | 0 <= k < |names| ensures names[k] == columns[k] {
      assert Component(entries[k], 0) == Ok(columns[k]);
    }
    assert names == columns;
    OutputNamesConcat(casts, rest);
  }

  lemma OutputNamesConcat(casts: seq<OutputColumn>, rest: seq<string>)
    ensures OutputNames(casts + KeptColumns(rest)) == OutputNames(casts) + rest
  {
  }

  /**
   `astype`: the cast columns in the order of the pairs, then the columns the
   pairs do not name, in dataframe order.
   */
  function AsType(df: seq<string>, colsAndTypes: seq<Entry>): (r: Result<seq<OutputColumn>>)
    ensures r.Ok? <==> CheckColumnsTuples(df, colsAndTypes).Ok? && forall k :: 0 <= k < |colsAndTypes| ==> Castable(colsAndTypes[k])
    ensures CheckColumnsTuples(df, colsAndTypes).Err? ==> r == Err(CheckColumnsTuples(df, colsAndTypes).error)
    ensures CheckColumnsTuples(df, colsAndTypes).Ok? && CastColumns(colsAndTypes).Err? ==>
              r == Err(CastColumns(colsAndTypes).error)
    ensures r.Ok? ==> |r.value| >= |colsAndTypes|
    ensures r.Ok? ==> forall k :: 0 <= k < |colsAndTypes| ==>
              r.value[k] == Cast(Component(colsAndTypes[k], 0).value, ResolveType(Component(colsAndTypes[k], 1).value).value)
    ensures r.Ok? ==> forall k :: |colsAndTypes| <= k < |r.value| ==> r.value[k].Kept?
    ensures r.Ok? ==>
              OutputNames(r.value) == CheckColumnsTuples(df, colsAndTypes).value + Excluding(df, CheckColumnsTuples(df, colsAndTypes).value)
    ensures r.Ok? ==> forall c :: c in OutputNames(r.value) ==> c in df
  {
    match CheckColumnsTuples(df, colsAndTypes)
    case Err(e) => Err(e)
    case Ok(columns) =>
      match CastColumns(colsAndTypes)
      case Err(e) => Err(e)
      case Ok(casts) =>
        OutputNamesOfCasts(colsAndTypes, casts, columns, Excluding(df, columns));
        Ok(casts + KeptColumns(Excluding(df, columns)))
  }

  /**
   With distinct pair names and distinct dataframe columns, the columns
   `astype` selects are a rearrangement of the dataframe's.
   */
  lemma AsTypeIsPermutation(df: seq<string>, colsAndTypes: seq<Entry>)
    requires AsType(df, colsAndTypes).Ok?
    requires Distinct(df)
    requires Distinct(CheckColumnsTuples(df, colsAndTypes).value)
    ensures multiset(OutputNames(AsType(df, colsAndTypes).value)) == multiset(df)
  {
    ChosenThenRestIsPermutation(CheckColumnsTuples(df, colsAndTypes).value, df);
  }

  /**
   `astype` as the source has it: the module never imports `StringType`,
   `IntegerType`, `FloatType` or `DoubleType`, so building `dict_types` fails
   at its first entry with a NameError, before any argument is looked at.
   */
  function AsTypeAsWritten(df: seq<string>, colsAndTypes: seq<Entry>): (r: Result<seq<OutputColumn>>)
    ensures r.Err? && r.error.NameError?
    ensures AsType(df, colsAndTypes).Ok? ==> r != AsType(df, colsAndTypes)
  {
    Err(NameError("StringType"))
  }

  /** One call that shows the difference: casting column "b" of ["a", "b"] to int. */
  lemma AsTypeAsWrittenExample()
    ensures AsType(["a", "b"], [Tuple(["b", "int"])]) == Ok([Cast("b", IntegerType), Kept("a")])
    ensures AsTypeAsWritten(["a", "b"], [Tuple(["b", "int"])]) == Err(NameError("StringType"))
  {
    var df, pairs := ["a", "b"], [Tuple(["b", "int"])];
    assert pairs[1..] == [];
    assert Component(pairs[0], 0) == Ok("b") && Component(pairs[0], 1) == Ok("int");
    var none: seq<string> := [];
    assert FirstComponents(pairs[1..]) == Ok(none);
    assert ["b"] + none == ["b"];
    assert FirstComponents(pairs) == Ok(["b"]);
    assert CheckColumnsTuples(df, pairs) == Ok(["b"]);
    assert ResolveType("int") == Ok(IntegerType);
    var noCasts: seq<OutputColumn> := [];
    assert CastColumns(pairs[1..]) == Ok(noCasts);
    assert [Cast("b", IntegerType)] + noCasts == [Cast("b", IntegerType)];
    assert CastColumns(pairs) == Ok([Cast("b", IntegerType)]);
    assert Excluding(df, ["b"]) == ["a"];
    assert KeptColumns(["a"]) == [Kept("a")];
    assert AsType(df, pairs) == Ok([Cast("b", IntegerType)] + KeptColumns(["a"]));
    assert [Cast("b", IntegerType)] + [Kept("a")] == [Cast("b", IntegerType), Kept("a")];
  }
}
