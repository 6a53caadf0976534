/** The detailed specifications table of a boat model
    (`renderSpecificationsTable` in model-specs.js), as the sequence of rows
    it renders. */
module ModelSpecs {
  import opened Basics
  import opened Seqs

  /** A group of the table: its title and the specification keys it lists. */
  datatype SpecSection = SpecSection(name: string, fields: seq<string>)

  /** The seven sections, in display order. */
  const Sections: seq<SpecSection> := [
    SpecSection("General", ["Shipyard", "Type", "Subtype", "Model range", "Model", "Country", "Build type", "Status", "Premiere"]),
    SpecSection("Design & classification", ["Concept", "Architecture", "Exterior", "Classification"]),
    SpecSection("Dimensions", ["Length (LOA), m", "Beam (max), m", "Draft, m", "Dry weight, t"]),
    SpecSection("Hull & superstructure", ["Hull type", "Hull material", "Deadrise (transom)", "Decks"]),
    SpecSection("Accommodation", ["Passengers", "Heads"]),
    SpecSection("Engines, Performance, Capacity", ["Engine type", "Engines", "Fuel type", "Drive type", "Power, h.p.",
                                                  "Speed (max), kn", "Fuel capacity, l", "Water capacity, l"]),
    SpecSection("Features", ["Outdoor areas", "Beach club", "Hydraulic platform", "Stabilizers"])
  ]

  /** A table row: a section header, or a field with its value. */
  datatype Row = Header(title: string) | Field(name: string, value: string)

  /** The specifications object of a model: key to text. */
  type Specs = map<string, string>

  /** `specs[field] || ''`. */
  function Value(specs: Specs, field: string): string
  {
    if field in specs then specs[field] else ""
  }

  predicate HasValue(specs: Specs, field: string)
  {
    Value(specs, field) != ""
  }

  /** The rows for some fields: one per field with a non-empty value. */
  function FieldRows(specs: Specs, fields: seq<string>): seq<Row>
  {
    if |fields| == 0 then []
    else
      (if HasValue(specs, fields[0]) then [Field(fields[0], Value(specs, fields[0]))] else [])
      + FieldRows(specs, fields[1..])
  }

  /** A section: its header, then its field rows. */
  function SectionRows(specs: Specs, s: SpecSection): seq<Row>
  {
    [Header(s.name)] + FieldRows(specs, s.fields)
  }

  /** The rows of some sections, one section after another. */
  function TableRows(specs: Specs, sections: seq<SpecSection>): seq<Row>
  {
    if |sections| == 0 then [] else SectionRows(specs, sections[0]) + TableRows(specs, sections[1..])
  }

  /** The table, or nothing when there are no specifications (`null`) or no
      container to render into. */
  function RenderSpecs(specs: Option<Specs>, hasContainer: bool): (r: Option<seq<Row>>)
    ensures r.None? <==> specs.None? || !hasContainer
    ensures r.Some? ==> |r.value| >= |Sections| && r.value[0] == Header("General")
  {
    if specs.None? || !hasContainer then None
    else
      var rows := TableRows(specs.value, Sections);
      assert rows == SectionRows(specs.value, Sections[0]) + TableRows(specs.value, Sections[1..]);
      HeadersOfTable(specs.value, Sections);
      Some(rows)
  }

  // ---------------------------------------------------------------------
  // Headers

  predicate IsHeader(r: Row) { r.Header? }

  function HeaderOf(s: SpecSection): Row { Header(s.name) }

  /** Field rows hold no header. */
  lemma {:induction false} NoHeaderInFields(specs: Specs, fields: seq<string>)
    ensures Filter(IsHeader, FieldRows(specs, fields)) == []
    decreases |fields|
  {
    if |fields| > 0 {
      var head := if HasValue(specs, fields[0]) then [Field(fields[0], Value(specs, fields[0]))] else [];
      NoHeaderInFields(specs, fields[1..]);
      FilterAppend(IsHeader, head, FieldRows(specs, fields[1..]));
      assert Filter(IsHeader, head) == [];
    }
  }

  /** The headers of the table are the section titles, one each, in order. */
  lemma {:induction false} HeadersOfTable(specs: Specs, sections: seq<SpecSection>)
    ensures Filter(IsHeader, TableRows(specs, sections)) == Map(HeaderOf, sections)
    decreases |sections|
  {
    if |sections| > 0 {
      var s := sections[0];
      HeadersOfTable(specs, sections[1..]);
      NoHeaderInFields(specs, s.fields);
      FilterAppend(IsHeader, SectionRows(specs, s), TableRows(specs, sections[1..]));
      FilterAppend(IsHeader, [Header(s.name)], FieldRows(specs, s.fields));
      assert Filter(IsHeader, [Header(s.name)]) == [Header(s.name)];
      assert Map(HeaderOf, sections) == [HeaderOf(s)] + Map(HeaderOf, sections[1..]);
    }
  }

  /** The rendered table has exactly seven header rows, in declared order. */
  lemma SevenHeaders(specs: Specs)
    ensures var hs := Filter(IsHeader, RenderSpecs(Some(specs), true).value);
            |hs| == 7 && forall k :: 0 <= k < 7 ==> hs[k] == Header(Sections[k].name)
  {
    HeadersOfTable(specs, Sections);
  }

  // ---------------------------------------------------------------------
  // Field rows

  function FieldName(r: Row): string
  {
    if r.Field? then r.name else ""
  }

  /** The fields named by a section's field rows are its fields with a value,
      in declared order. */
  lemma {:induction false} FieldRowsNames(specs: Specs, fields: seq<string>)
    ensures Map(FieldName, FieldRows(specs, fields)) == Filter(f => HasValue(specs, f), fields)
    decreases |fields|
  {
    if |fields| > 0 {
      var head: seq<Row> := if HasValue(specs, fields[0]) then [Field(fields[0], Value(specs, fields[0]))] else [];
      var rest := FieldRows(specs, fields[1..]);
      FieldRowsNames(specs, fields[1..]);
      MapAppend(FieldName, head, rest);
      assert Map(FieldName, head) == if HasValue(specs, fields[0]) then [fields[0]] else [];
    }
  }

  /** Each field row carries the value of the field it names. */
  lemma {:induction false} FieldRowsValues(specs: Specs, fields: seq<string>, k: nat)
    requires k < |FieldRows(specs, fields)|
    ensures FieldRows(specs, fields)[k].Field?
    ensures FieldRows(specs, fields)[k].value == Value(specs, FieldRows(specs, fields)[k].name)
    decreases |fields|
  {
    var head: seq<Row> := if HasValue(specs, fields[0]) then [Field(fields[0], Value(specs, fields[0]))] else [];
    var rest := FieldRows(specs, fields[1..]);
    assert FieldRows(specs, fields) == head + rest;
    if k >= |head| {
      assert (head + rest)[k] == rest[k - |head|];
      FieldRowsValues(specs, fields[1..], k - |head|);
    }
  }

  /** A section's field rows list, in declared order, exactly its fields that
      have a value, each with that value. */
  lemma FieldRowsOrder(specs: Specs, fields: seq<string>)
    ensures Map(FieldName, FieldRows(specs, fields)) == Filter(f => HasValue(specs, f), fields)
    ensures forall k :: 0 <= k < |FieldRows(specs, fields)| ==>
              FieldRows(specs, fields)[k].Field?
              && FieldRows(specs, fields)[k].value == Value(specs, FieldRows(specs, fields)[k].name)
  {
    FieldRowsNames(specs, fields);
    forall k | 0 <= k < |FieldRows(specs, fields)|
      ensures FieldRows(specs, fields)[k].Field?
              && FieldRows(specs, fields)[k].value == Value(specs, FieldRows(specs, fields)[k].name)
    {
      FieldRowsValues(specs, fields, k);
    }
  }

  /** A field row appears in a section iff the field is one of its fields
      with a non-empty value, and it carries that value. */
  lemma {:induction false} FieldRowIn(specs: Specs, fields: seq<string>, n: string, v: string)
    ensures Field(n, v) in FieldRows(specs, fields) <==> n in fields && v == Value(specs, n) && v != ""
    decreases |fields|
  {
    if |fields| > 0 {
      FieldRowIn(specs, fields[1..], n, v);
      assert n in fields <==> n == fields[0] || n in fields[1..];
    }
  }

  /** A field row appears in the table iff some section lists the field and
      the field has a non-empty value, which the row carries; keys no section
      lists never appear. */
  lemma {:induction false} TableFieldRow(specs: Specs, sections: seq<SpecSection>, n: string, v: string)
    ensures Field(n, v) in TableRows(specs, sections)
            <==> (exists k :: 0 <= k < |sections| && n in sections[k].fields) && v == Value(specs, n) && v != ""
    decreases |sections|
  {
    if |sections| > 0 {
      TableFieldRow(specs, sections[1..], n, v);
      FieldRowIn(specs, sections[0].fields, n, v);
      if exists k :: 0 <= k < |sections| && n in sections[k].fields {
        var k :| 0 <= k < |sections| && n in sections[k].fields;
        if k > 0 {
          assert sections[1..][k - 1] == sections[k];
        }
      }
      if exists k :: 0 <= k < |sections| - 1 && n in sections[1..][k].fields {
        var k :| 0 <= k < |sections| - 1 && n in sections[1..][k].fields;
        assert sections[k + 1] == sections[1..][k];
      }
    }
  }
}
