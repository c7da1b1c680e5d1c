/**
 * The catalog build: one pass over the spreadsheet rows that files each
 * complete row under its insulin class, as
 * insulin name -> concentration key -> device form -> units per device.
 */
module Catalog {
  import opened Wrappers
  import opened Labels

  const LongActingInsulins: set<string> := {"Tresiba", "Toujeo", "Lantus", "Basaglar", "Levemir", "Awiqli"}
  const RapidActingInsulins: set<string> := {"Trurapi", "NovoRapid", "Humalog", "Apidra", "Fiasp"}

  /** One already-parsed spreadsheet row; None is an empty (NaN) cell. */
  datatype Row = Row(
    insulinType: Option<string>,     // "Insulin Type"
    concentration: Option<real>,     // "Concentration u/ml"
    form: Option<string>,            // "Form"
    amountPerDevice: Option<real>)   // "Amount/Device"

  datatype InsulinClass = LongActing | RapidActing

  /** insulin name -> concentration key -> device form -> units per device */
  type Table = map<string, map<string, map<string, real>>>

  /** No name is in both class sets. */
  lemma ClassSetsDisjoint()
    ensures LongActingInsulins !! RapidActingInsulins
  {
  }

  /** The class a name is filed under: the long-acting set is tested first. */
  function Classify(name: string): (cls: Option<InsulinClass>)
    ensures cls == Some(LongActing) <==> name in LongActingInsulins
    ensures cls == Some(RapidActing) <==> name in RapidActingInsulins
    ensures cls == None <==> name !in LongActingInsulins && name !in RapidActingInsulins
  {
    ClassSetsDisjoint();
    if name in LongActingInsulins then Some(LongActing)
    else if name in RapidActingInsulins then Some(RapidActing)
    else None
  }

  /** A row that is kept, with the path it is stored under and the value stored. */
  datatype Entry = Entry(cls: InsulinClass, name: string, concentration: string, form: string, capacity: real)

  /** The entry a row writes, or None when the row is skipped or in neither class. */
  function Admit(row: Row): (e: Option<Entry>)
    ensures row.insulinType.None? || row.form.None? || row.amountPerDevice.None? ==> e.None?
    ensures e.Some? <==>
              row.insulinType.Some? && row.form.Some? && row.amountPerDevice.Some? &&
              (row.insulinType.value in LongActingInsulins || row.insulinType.value in RapidActingInsulins)
    ensures e.Some? ==>
              && e.value.name == row.insulinType.value
              && e.value.concentration == ConcentrationLabel(row.concentration)
              && e.value.form == row.form.value
              && e.value.capacity == row.amountPerDevice.value
              && (e.value.cls == LongActing <==> e.value.name in LongActingInsulins)
              && (e.value.cls == RapidActing <==> e.value.name in RapidActingInsulins)
  {
    // the concentration key is never missing: an empty cell gives "Unknown"
    var conc := ConcentrationLabel(row.concentration);
    if row.insulinType.Some? && row.form.Some? && row.amountPerDevice.Some? then
      match Classify(row.insulinType.value)
      case Some(cls) =>
        Some(Entry(cls, row.insulinType.value, conc, row.form.value, row.amountPerDevice.value))
      case None => None
    else None
  }

  /**
   * An empty concentration cell does not cause a skip: a complete row of a
   * known class is filed under "Unknown"; a present concentration under
   * "U-" and its truncation.
   */
  lemma ConcentrationKeyOfKeptRow(row: Row)
    requires row.insulinType.Some? && row.form.Some? && row.amountPerDevice.Some?
    requires row.insulinType.value in LongActingInsulins + RapidActingInsulins
    ensures Admit(row).Some?
    ensures row.concentration.None? ==> Admit(row).value.concentration == UnknownConcentration
    ensures row.concentration.Some? ==>
              Admit(row).value.concentration == "U-" + IntToDecimal(Trunc(row.concentration.value))
  {
  }

  /** Whether an admitted entry writes the path (cls, name, conc, form). */
  predicate Writes(e: Option<Entry>, cls: InsulinClass, name: string, conc: string, form: string)
  {
    e.Some? && e.value.cls == cls && e.value.name == name &&
    e.value.concentration == conc && e.value.form == form
  }

  /** What each row contributes, in row order. */
  function Admitted(rows: seq<Row>): (es: seq<Option<Entry>>)
    ensures |es| == |rows| && forall k | 0 <= k < |rows| :: es[k] == Admit(rows[k])
  {
    seq(|rows|, k requires 0 <= k < |rows| => Admit(rows[k]))
  }

  /** The capacity of the last entry that writes the path, if any does. */
  function LastWrite(es: seq<Option<Entry>>, cls: InsulinClass, name: string, conc: string, form: string): Option<real>
  {
    if es == [] then None
    else if Writes(es[|es| - 1], cls, name, conc, form) then Some(es[|es| - 1].value.capacity)
    else LastWrite(es[..|es| - 1], cls, name, conc, form)
  }

  /** The value a build of rows leaves at a path of the table of class cls. */
  function LastStored(rows: seq<Row>, cls: InsulinClass, name: string, conc: string, form: string): Option<real>
  {
    LastWrite(Admitted(rows), cls, name, conc, form)
  }

  /** The entry at a path of a table, if there is one. */
  function Lookup(t: Table, name: string, conc: string, form: string): Option<real>
  {
    if name in t && conc in t[name] && form in t[name][conc] then Some(t[name][conc][form]) else None
  }

  /** Every insulin has a concentration and every concentration has a device form. */
  predicate WellFormed(t: Table)
  {
    forall name | name in t :: t[name] != map[] && forall conc | conc in t[name] :: t[name][conc] != map[]
  }

  /**
   * t[name][conc][form] = capacity, first creating the inner maps that are
   * missing.  Exactly that entry changes.
   */
  method StoreEntry(t: Table, name: string, conc: string, form: string, capacity: real) returns (t': Table)
    ensures Lookup(t', name, conc, form) == Some(capacity)
    ensures forall n, c, f :: (n, c, f) != (name, conc, form) ==> Lookup(t', n, c, f) == Lookup(t, n, c, f)
    ensures t'.Keys == t.Keys + {name}
    ensures WellFormed(t) ==> WellFormed(t')
  {
    t' := t;
    if name !in t' {
      t' := t'[name := map[]];
    }
    if conc !in t'[name] {
      t' := t'[name := t'[name][conc := map[]]];
    }
    t' := t'[name := t'[name][conc := t'[name][conc][form := capacity]]];
  }

  /** The value stored at a path after one more row. */
  lemma LastStoredSnoc(rows: seq<Row>, row: Row, cls: InsulinClass, name: string, conc: string, form: string)
    ensures LastStored(rows + [row], cls, name, conc, form) ==
              if Writes(Admit(row), cls, name, conc, form) then Some(Admit(row).value.capacity)
              else LastStored(rows, cls, name, conc, form)
  {
    var es := Admitted(rows + [row]);
    assert es[..|rows|] == Admitted(rows);
  }

  /**
   * Builds LONG_ACTING_OPTIONS and RAPID_ACTING_OPTIONS from the rows, in
   * order.  Each table holds, at every path, the capacity of the last kept
   * row of its class with that path, and nothing else; no inner map is
   * empty, so a chosen insulin always offers a concentration and a chosen
   * concentration always offers a device form.
   */
  method BuildOptions(rows: seq<Row>) returns (longOptions: Table, rapidOptions: Table)
    ensures WellFormed(longOptions) && WellFormed(rapidOptions)
    ensures longOptions.Keys <= LongActingInsulins && rapidOptions.Keys <= RapidActingInsulins
    ensures forall n, c, f :: Lookup(longOptions, n, c, f) == LastStored(rows, LongActing, n, c, f)
    ensures forall n, c, f :: Lookup(rapidOptions, n, c, f) == LastStored(rows, RapidActing, n, c, f)
  {
    longOptions, rapidOptions := map[], map[];
    for i := 0 to |rows|
      invariant WellFormed(longOptions) && WellFormed(rapidOptions)
      invariant longOptions.Keys <= LongActingInsulins && rapidOptions.Keys <= RapidActingInsulins
      invariant forall n, c, f :: Lookup(longOptions, n, c, f) == LastStored(rows[..i], LongActing, n, c, f)
      invariant forall n, c, f :: Lookup(rapidOptions, n, c, f) == LastStored(rows[..i], RapidActing, n, c, f)
    {
      var row := rows[i];
      assert rows[..i + 1] == rows[..i] + [row];
      forall n, c, f ensures LastStored(rows[..i + 1], LongActing, n, c, f) == LastStored(rows[..i] + [row], LongActing, n, c, f)
                     && LastStored(rows[..i + 1], RapidActing, n, c, f) == LastStored(rows[..i] + [row], RapidActing, n, c, f) {
      }
      var concentration := ConcentrationLabel(row.concentration);
      // the source also tests the concentration key for NaN; a key is never NaN
      if row.insulinType.Some? && row.form.Some? && row.amountPerDevice.Some? {
        var name, form, capacity := row.insulinType.value, row.form.value, row.amountPerDevice.value;
        if name in LongActingInsulins {
          longOptions := StoreEntry(longOptions, name, concentration, form, capacity);
        } else if name in RapidActingInsulins {
          rapidOptions := StoreEntry(rapidOptions, name, concentration, form, capacity);
        }
      }
      forall n, c, f
        ensures Lookup(longOptions, n, c, f) == LastStored(rows[..i + 1], LongActing, n, c, f)
        ensures Lookup(rapidOptions, n, c, f) == LastStored(rows[..i + 1], RapidActing, n, c, f)
      {
        LastStoredSnoc(rows[..i], row, LongActing, n, c, f);
        LastStoredSnoc(rows[..i], row, RapidActing, n, c, f);
      }
    }
    assert rows[..|rows|] == rows;
  }

  lemma {:induction false} LastWriteNone(es: seq<Option<Entry>>, cls: InsulinClass, name: string, conc: string, form: string)
    ensures LastWrite(es, cls, name, conc, form).None? <==>
              forall i | 0 <= i < |es| :: !Writes(es[i], cls, name, conc, form)
  {
    if es != [] {
      var init := es[..|es| - 1];
      LastWriteNone(init, cls, name, conc, form);
      assert forall i | 0 <= i < |init| :: es[i] == init[i];
    }
  }

  lemma {:induction false} LastWriteIsLastWriter(es: seq<Option<Entry>>, cls: InsulinClass, name: string, conc: string, form: string)
    requires LastWrite(es, cls, name, conc, form).Some?
    ensures exists i | 0 <= i < |es| ::
              && Writes(es[i], cls, name, conc, form)
              && es[i].value.capacity == LastWrite(es, cls, name, conc, form).value
              && forall j | i < j < |es| :: !Writes(es[j], cls, name, conc, form)
  {
    var init := es[..|es| - 1];
    if !Writes(es[|es| - 1], cls, name, conc, form) {
      LastWriteIsLastWriter(init, cls, name, conc, form);
      var i :| 0 <= i < |init| && Writes(init[i], cls, name, conc, form)
               && init[i].value.capacity == LastWrite(init, cls, name, conc, form).value
               && forall j | i < j < |init| :: !Writes(init[j], cls, name, conc, form);
      assert forall j | 0 <= j < |init| :: es[j] == init[j];
      assert Writes(es[i], cls, name, conc, form);
    }
  }

  /** A path of a built table is empty exactly when no kept row of that class has that path. */
  lemma NeverWrittenIsAbsent(rows: seq<Row>, cls: InsulinClass, name: string, conc: string, form: string)
    ensures LastStored(rows, cls, name, conc, form).None? <==>
              forall i | 0 <= i < |rows| :: !Writes(Admit(rows[i]), cls, name, conc, form)
  {
    LastWriteNone(Admitted(rows), cls, name, conc, form);
  }

  /**
   * Every stored path comes from a kept row: a value held at a path is the
   * capacity of a kept row of that class with that path, and no later row
   * writes the path.
   */
  lemma StoredComesFromLastRow(rows: seq<Row>, cls: InsulinClass, name: string, conc: string, form: string)
    requires LastStored(rows, cls, name, conc, form).Some?
    ensures exists i | 0 <= i < |rows| ::
              && Writes(Admit(rows[i]), cls, name, conc, form)
              && Admit(rows[i]).value.capacity == LastStored(rows, cls, name, conc, form).value
              && forall j | i < j < |rows| :: !Writes(Admit(rows[j]), cls, name, conc, form)
  {
    var es := Admitted(rows);
    LastWriteIsLastWriter(es, cls, name, conc, form);
    var i :| 0 <= i < |es| && Writes(es[i], cls, name, conc, form)
             && es[i].value.capacity == LastWrite(es, cls, name, conc, form).value
             && forall j | i < j < |es| :: !Writes(es[j], cls, name, conc, form);
    assert Writes(Admit(rows[i]), cls, name, conc, form);
  }

  /**
   * A row that is skipped (missing name, form or capacity) or whose name is in
   * neither class set leaves every path of both tables as it was.
   */
  lemma SkippedRowChangesNothing(rows: seq<Row>, row: Row, cls: InsulinClass, name: string, conc: string, form: string)
    requires Admit(row).None?
    ensures LastStored(rows + [row], cls, name, conc, form) == LastStored(rows, cls, name, conc, form)
  {
    LastStoredSnoc(rows, row, cls, name, conc, form);
  }

  /** A kept row is filed under its own class only: the other table does not see it. */
  lemma RowRoutedToOneClass(rows: seq<Row>, row: Row, name: string, conc: string, form: string)
    requires row.insulinType.Some?
    ensures row.insulinType.value !in LongActingInsulins ==>
              LastStored(rows + [row], LongActing, name, conc, form) == LastStored(rows, LongActing, name, conc, form)
    ensures row.insulinType.value !in RapidActingInsulins ==>
              LastStored(rows + [row], RapidActing, name, conc, form) == LastStored(rows, RapidActing, name, conc, form)
  {
    LastStoredSnoc(rows, row, LongActing, name, conc, form);
    LastStoredSnoc(rows, row, RapidActing, name, conc, form);
  }

  /**
   * A later row with the same path overwrites an earlier one: after it, the
   * path holds its capacity whatever came before.
   */
  lemma LaterRowOverwrites(rows: seq<Row>, row: Row, later: seq<Row>)
    requires Admit(row).Some?
    requires forall j | 0 <= j < |later| ::
               var e := Admit(row).value; !Writes(Admit(later[j]), e.cls, e.name, e.concentration, e.form)
    ensures var e := Admit(row).value;
            LastStored(rows + [row] + later, e.cls, e.name, e.concentration, e.form) == Some(e.capacity)
  {
    var e := Admit(row).value;
    var all := rows + [row] + later;
    var es := Admitted(all);
    assert es[|rows|] == Admit(row);
    LastWriteNone(es, e.cls, e.name, e.concentration, e.form);
    LastWriteIsLastWriter(es, e.cls, e.name, e.concentration, e.form);
    var i :| 0 <= i < |es| && Writes(es[i], e.cls, e.name, e.concentration, e.form)
             && es[i].value.capacity == LastWrite(es, e.cls, e.name, e.concentration, e.form).value
             && forall j | i < j < |es| :: !Writes(es[j], e.cls, e.name, e.concentration, e.form);
  }

  /**
   * The contract of BuildOptions determines its result: two well-formed
   * tables with the same entry at every path are the same table.
   */
  lemma TablesDeterminedByLookup(a: Table, b: Table)
    requires WellFormed(a) && WellFormed(b)
    requires forall n, c, f :: Lookup(a, n, c, f) == Lookup(b, n, c, f)
    ensures a == b
  {
    forall n | n in a ensures n in b && a[n] == b[n] {
      InnerDeterminedByLookup(a, b, n);
    }
    forall n | n in b ensures n in a {
      InnerDeterminedByLookup(b, a, n);
    }
  }

  lemma InnerDeterminedByLookup(a: Table, b: Table, n: string)
    requires WellFormed(a) && WellFormed(b)
    requires forall n, c, f :: Lookup(a, n, c, f) == Lookup(b, n, c, f)
    requires n in a
    ensures n in b && a[n] == b[n]
  {
    var c0 :| c0 in a[n];
    var f0 :| f0 in a[n][c0];
    assert Lookup(a, n, c0, f0).Some?;
    assert Lookup(b, n, c0, f0).Some?;
    forall c | c in a[n] ensures c in b[n] && a[n][c] == b[n][c] {
      var f1 :| f1 in a[n][c];
      assert Lookup(b, n, c, f1) == Lookup(a, n, c, f1);
      forall f | f in a[n][c] ensures f in b[n][c] && a[n][c][f] == b[n][c][f] {
        assert Lookup(b, n, c, f) == Lookup(a, n, c, f);
      }
      forall f | f in b[n][c] ensures f in a[n][c] {
        assert Lookup(b, n, c, f) == Lookup(a, n, c, f);
      }
    }
    forall c | c in b[n] ensures c in a[n] {
      var f1 :| f1 in b[n][c];
      assert Lookup(b, n, c, f1) == Lookup(a, n, c, f1);
    }
  }
}
