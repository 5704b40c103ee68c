/** The dashboard: per-gender and per-model counts over the recorded
    observations, and their export as comma-separated values. */
module Dashboard {
  import opened Js

  /** A recorded observation as the dashboard reads it. `notes` and
      `imageUrl` may be null; `createdAt` is the stored timestamp text. */
  datatype Entry = Entry(
    prompt: string,
    model: string,
    genderBias: string,
    notes: Option<string>,
    createdAt: string,
    imageUrl: Option<string>)

  /** The two columns the dashboard counts by. */
  datatype Column = Gender | Model

  function Field(e: Entry, c: Column): string
  {
    match c
    case Gender => e.genderBias
    case Model => e.model
  }

  /** The column `c` of every entry, in entry order. */
  function Values(entries: seq<Entry>, c: Column): (vs: seq<string>)
    ensures |vs| == |entries|
    ensures forall i :: 0 <= i < |entries| ==> vs[i] == Field(entries[i], c)
  {
    if entries == [] then [] else Values(entries[..|entries| - 1], c) + [Field(entries[|entries| - 1], c)]
  }

  /** Number of occurrences of `v` in `xs`. */
  function Count(xs: seq<string>, v: string): nat
  {
    multiset(xs)[v]
  }

  /** `acc` is the histogram of column `c`: every value occurs as often as
      `acc` says, and values missing from `acc` do not occur. */
  ghost predicate Tallied(entries: seq<Entry>, c: Column, acc: map<string, nat>)
  {
    forall k :: Count(Values(entries, c), k) == if k in acc then acc[k] else 0
  }

  /** `entries.reduce((acc, curr) => { acc[curr[c]] = (acc[curr[c]] || 0) + 1; return acc }, {})`. */
  method Tally(entries: seq<Entry>, c: Column) returns (acc: map<string, nat>)
    ensures Tallied(entries, c, acc)
    ensures forall k :: k in acc <==> k in Values(entries, c)
  {
    acc := map[];
    ghost var vs := Values(entries, c);
    for i := 0 to |entries|
      invariant forall k :: Count(vs[..i], k) == if k in acc then acc[k] else 0
      invariant forall k :: k in acc ==> acc[k] > 0
    {
      var key := Field(entries[i], c);
      assert vs[..i + 1] == vs[..i] + [key];
      acc := acc[key := (if key in acc then acc[key] else 0) + 1];
    }
    assert vs[..|entries|] == vs;
    forall k ensures k in acc <==> k in vs {
      assert k in vs <==> multiset(vs)[k] > 0;
    }
  }

  /** What the dashboard shows: the placeholder for an empty list, otherwise
      the total and the two histograms. */
  datatype View = Placeholder | Stats(total: nat, genderCounts: map<string, nat>, modelCounts: map<string, nat>)

  method Summarise(entries: seq<Entry>) returns (v: View)
    ensures v.Placeholder? <==> entries == []
    ensures v.Stats? ==> v.total == |entries|
    ensures v.Stats? ==> Tallied(entries, Gender, v.genderCounts) && Tallied(entries, Model, v.modelCounts)
  {
    if |entries| == 0 {
      return Placeholder;
    }
    var total := |entries|;
    var genderCounts := Tally(entries, Gender);
    var modelCounts := Tally(entries, Model);
    v := Stats(total, genderCounts, modelCounts);
  }

  /** `counts[k] || 0`: the number shown next to a key. */
  function Shown(acc: map<string, nat>, k: string): nat
  {
    if k in acc then acc[k] else 0
  }

  /** The number shown for any key, including one of the four gender keys
      that no entry carries, is the number of entries holding it. */
  lemma ShownIsCount(entries: seq<Entry>, c: Column, acc: map<string, nat>, k: string)
    requires Tallied(entries, c, acc)
    ensures Shown(acc, k) == |set i | 0 <= i < |entries| && Field(entries[i], c) == k|
  {
    var vs := Values(entries, c);
    CountIsIndexSet(vs, k);
    assert (set i | 0 <= i < |vs| && vs[i] == k) == (set i | 0 <= i < |entries| && Field(entries[i], c) == k);
  }

  /** The occurrences of `v` in `xs` are as many as the indices holding it. */
  lemma {:induction false} CountIsIndexSet(xs: seq<string>, v: string)
    ensures Count(xs, v) == |set i | 0 <= i < |xs| && xs[i] == v|
    decreases |xs|
  {
    if xs != [] {
      var ys := xs[..|xs| - 1];
      CountIsIndexSet(ys, v);
      assert xs == ys + [xs[|xs| - 1]];
      var a := set i | 0 <= i < |ys| && ys[i] == v;
      var b := set i | 0 <= i < |xs| && xs[i] == v;
      if xs[|xs| - 1] == v {
        assert b == a + {|ys|};
      } else {
        assert b == a;
      }
    }
  }

  predicate Distinct(ks: seq<string>)
  {
    forall i, j :: 0 <= i < j < |ks| ==> ks[i] != ks[j]
  }

  /** The sum of `acc[k]` over the keys `ks`. */
  function Total(acc: map<string, nat>, ks: seq<string>): nat
    requires forall k :: k in ks ==> k in acc
  {
    if ks == [] then 0 else acc[ks[0]] + Total(acc, ks[1..])
  }

  /** The sum of the counts in `xs` of the keys `ks`. */
  function SumCounts(xs: seq<string>, ks: seq<string>): nat
  {
    if ks == [] then 0 else Count(xs, ks[0]) + SumCounts(xs, ks[1..])
  }

  lemma {:induction false} SumCountsSnoc(xs: seq<string>, x: string, ks: seq<string>)
    ensures SumCounts(xs + [x], ks) == SumCounts(xs, ks) + Count(ks, x)
    decreases |ks|
  {
    if ks != [] {
      SumCountsSnoc(xs, x, ks[1..]);
      assert ks == [ks[0]] + ks[1..];
    }
  }

  lemma {:induction false} CountInDistinct(ks: seq<string>, x: string)
    requires Distinct(ks) && x in ks
    ensures Count(ks, x) == 1
    decreases |ks|
  {
    assert ks == [ks[0]] + ks[1..];
    if ks[0] == x {
      assert x !in ks[1..];
    } else {
      CountInDistinct(ks[1..], x);
    }
  }

  /** Counting every value of `xs` once per distinct key accounts for all of `xs`. */
  lemma {:induction false} CountsAddUp(xs: seq<string>, ks: seq<string>)
    requires Distinct(ks)
    requires forall x :: x in xs ==> x in ks
    ensures SumCounts(xs, ks) == |xs|
    decreases |xs|
  {
    if xs == [] {
      ZeroCounts(ks);
    } else {
      var ys, x := xs[..|xs| - 1], xs[|xs| - 1];
      assert xs == ys + [x];
      CountsAddUp(ys, ks);
      SumCountsSnoc(ys, x, ks);
      CountInDistinct(ks, x);
    }
  }

  lemma {:induction false} ZeroCounts(ks: seq<string>)
    ensures SumCounts([], ks) == 0
    decreases |ks|
  {
    if ks != [] {
      ZeroCounts(ks[1..]);
    }
  }

  lemma {:induction false} TotalIsSumCounts(entries: seq<Entry>, c: Column, acc: map<string, nat>, ks: seq<string>)
    requires Tallied(entries, c, acc)
    requires forall k :: k in ks ==> k in acc
    ensures Total(acc, ks) == SumCounts(Values(entries, c), ks)
    decreases |ks|
  {
    if ks != [] {
      TotalIsSumCounts(entries, c, acc, ks[1..]);
    }
  }

  /** The counts of a histogram add up to the number of entries: summing it
      over any duplicate-free listing of its keys gives `total`. */
  lemma HistogramSumsToTotal(entries: seq<Entry>, c: Column, acc: map<string, nat>, ks: seq<string>)
    requires Tallied(entries, c, acc)
    requires Distinct(ks) && forall k :: k in ks <==> k in acc
    ensures Total(acc, ks) == |entries|
  {
    TotalIsSumCounts(entries, c, acc, ks);
    CountsAddUp(Values(entries, c), ks);
  }

  /** The Italian display labels of the four gender values. */
  const GENDER_LABELS: map<string, string> :=
    map["Male" := "Maschile", "Female" := "Femminile", "Balanced" := "Bilanciato", "Ambiguous" := "Ambiguo"]

  /** `genderLabels[g] || g`: the label, or the raw value when unmapped.
      The object's inherited members are not modelled as entries. */
  function GenderLabel(g: string): (shown: string)
    ensures g in GENDER_LABELS ==> shown == GENDER_LABELS[g]
    ensures g !in GENDER_LABELS ==> shown == g
  {
    if g in GENDER_LABELS && GENDER_LABELS[g] != "" then GENDER_LABELS[g] else g
  }

  /** `"${s.replace(/"/g, '""')}"`: wrap in quotes, doubling inner quotes. */
  function QuoteField(s: string): (r: string)
    ensures |r| >= |s| + 2 && r[0] == '"' && r[|r| - 1] == '"'
  {
    ['"'] + DoubleQuotes(s) + ['"']
  }

  function DoubleQuotes(s: string): (r: string)
    ensures |r| >= |s|
  {
    if s == [] then []
    else if s[0] == '"' then ['"', '"'] + DoubleQuotes(s[1..])
    else [s[0]] + DoubleQuotes(s[1..])
  }

  /** `xs || ''` for a value that may be null. */
  function OrEmpty(s: Option<string>): string
  {
    if s.Some? then s.value else ""
  }

  const HEADERS: seq<string> := ["Prompt", "Modello", "Genere", "Note", "Data", "Immagine"]

  /** The values a row of the export is meant to carry, one per header.
      `fmt` stands for the locale date formatting. */
  function RowValues(e: Entry, fmt: string -> string): seq<string>
  {
    [e.prompt, e.model, GenderLabel(e.genderBias), OrEmpty(e.notes), fmt(e.createdAt), OrEmpty(e.imageUrl)]
  }

  /** A row as the export writes it: only the prompt and notes are quoted. */
  function RowAsWritten(e: Entry, fmt: string -> string): (r: seq<string>)
    ensures |r| == |HEADERS| == |RowValues(e, fmt)|
    ensures r[0] == QuoteField(RowValues(e, fmt)[0]) && r[3] == QuoteField(RowValues(e, fmt)[3])
    ensures r[1] == RowValues(e, fmt)[1] && r[2] == RowValues(e, fmt)[2]
    ensures r[4] == RowValues(e, fmt)[4] && r[5] == RowValues(e, fmt)[5]
  {
    [QuoteField(e.prompt), e.model, GenderLabel(e.genderBias), QuoteField(OrEmpty(e.notes)),
     fmt(e.createdAt), OrEmpty(e.imageUrl)]
  }

  /** A row with every field quoted. */
  function Row(e: Entry, fmt: string -> string): seq<string>
  {
    var vs := RowValues(e, fmt);
    [QuoteField(vs[0]), QuoteField(vs[1]), QuoteField(vs[2]), QuoteField(vs[3]), QuoteField(vs[4]), QuoteField(vs[5])]
  }

  /** `[headers, ...rows].map(r => r.join(","))`. */
  function Lines(header: seq<string>, rows: seq<seq<string>>): (ls: seq<string>)
    ensures |ls| == |rows| + 1
  {
    [Join(header, ",")] + JoinEach(rows)
  }

  function JoinEach(rows: seq<seq<string>>): (ls: seq<string>)
    ensures |ls| == |rows|
    ensures forall i :: 0 <= i < |rows| ==> ls[i] == Join(rows[i], ",")
  {
    if rows == [] then [] else [Join(rows[0], ",")] + JoinEach(rows[1..])
  }

  function RowsAsWritten(entries: seq<Entry>, fmt: string -> string): (rs: seq<seq<string>>)
    ensures |rs| == |entries|
    ensures forall i :: 0 <= i < |entries| ==> rs[i] == RowAsWritten(entries[i], fmt)
  {
    if entries == [] then [] else [RowAsWritten(entries[0], fmt)] + RowsAsWritten(entries[1..], fmt)
  }

  function Rows(entries: seq<Entry>, fmt: string -> string): (rs: seq<seq<string>>)
    ensures |rs| == |entries|
    ensures forall i :: 0 <= i < |entries| ==> rs[i] == Row(entries[i], fmt)
  {
    if entries == [] then [] else [Row(entries[0], fmt)] + Rows(entries[1..], fmt)
  }

  /** The export's text as the component builds it. */
  function CsvAsWritten(entries: seq<Entry>, fmt: string -> string): (r: string)
    ensures entries == [] ==> r == Join(HEADERS, ",")
    ensures entries != [] ==>
      r == Join(HEADERS, ",") + ("\n" + Join(JoinEach(RowsAsWritten(entries, fmt)), "\n"))
  {
    var ls := Lines(HEADERS, RowsAsWritten(entries, fmt));
    assert ls[1..] == JoinEach(RowsAsWritten(entries, fmt));
    if entries == [] then
      Join(ls, "\n")
    else
      JoinHead(ls, "\n");
      Join(ls, "\n")
  }

  /** The export with every data field quoted. */
  function Csv(entries: seq<Entry>, fmt: string -> string): string
  {
    Join(Lines(HEADERS, Rows(entries, fmt)), "\n")
  }

  // ---------------------------------------------------------------------
  // Reading comma-separated values back, after section 2 of RFC 4180 with
  // "\n" as the record separator: a field is either quoted, where a doubled
  // quote stands for one quote, or runs to the next comma or newline.

  /** The inside of a quoted field, after its opening quote: the unescaped
      text and what follows the closing quote. */
  function ReadQuoted(s: string): (r: Option<(string, string)>)
    ensures r.Some? ==> |r.value.1| < |s|
    decreases |s|
  {
    if s == [] then None
    else if s[0] == '"' then
      if |s| >= 2 && s[1] == '"' then
        match ReadQuoted(s[2..])
        case None => None
        case Some(fr) => Some((['"'] + fr.0, fr.1))
      else Some(([], s[1..]))
    else
      match ReadQuoted(s[1..])
      case None => None
      case Some(fr) => Some(([s[0]] + fr.0, fr.1))
  }

  /** An unquoted field: everything up to the next comma or newline. */
  function ReadPlain(s: string): (r: (string, string))
    ensures r.0 + r.1 == s
    ensures r.1 == [] || r.1[0] == ',' || r.1[0] == '\n'
  {
    if s == [] || s[0] == ',' || s[0] == '\n' then ([], s)
    else
      var fr := ReadPlain(s[1..]);
      ([s[0]] + fr.0, fr.1)
  }

  /** One field and what follows it, which is empty or starts with a
      separator; `None` when a quoted field is malformed. */
  function ReadField(s: string): (r: Option<(string, string)>)
    ensures r.Some? ==> |r.value.1| <= |s|
    ensures r.Some? ==> r.value.1 == [] || r.value.1[0] == ',' || r.value.1[0] == '\n'
  {
    if s != [] && s[0] == '"' then
      match ReadQuoted(s[1..])
      case None => None
      case Some(fr) =>
        if fr.1 == [] || fr.1[0] == ',' || fr.1[0] == '\n' then Some(fr) else None
    else Some(ReadPlain(s))
  }

  /** The records of a document, each a non-empty list of fields. */
  function ParseCsv(s: string): (r: Option<seq<seq<string>>>)
    ensures r.Some? ==> r.value != [] && r.value[0] != []
    decreases |s|
  {
    match ReadField(s)
    case None => None
    case Some(fr) =>
      if fr.1 == [] then Some([[fr.0]])
      else
        match ParseCsv(fr.1[1..])
        case None => None
        case Some(recs) =>
          if fr.1[0] == ',' then Some([[fr.0] + recs[0]] + recs[1..])
          else Some([[fr.0]] + recs)
  }

  /** Text that can stand unquoted in a field. */
  predicate Plain(s: string)
  {
    forall i :: 0 <= i < |s| ==> s[i] != ',' && s[i] != '\n' && s[i] != '"'
  }

  /** `cell` as written reads back as `text`. */
  predicate Encodes(cell: string, text: string)
  {
    cell == QuoteField(text) || (cell == text && Plain(text))
  }

  /** What may follow a field. */
  predicate FieldEnd(t: string)
  {
    t == [] || t[0] == ',' || t[0] == '\n'
  }

  lemma {:induction false} ReadQuotedDoubled(x: string, t: string)
    requires t == [] || t[0] != '"'
    ensures ReadQuoted(DoubleQuotes(x) + ['"'] + t) == Some((x, t))
    decreases |x|
  {
    var s := DoubleQuotes(x) + ['"'] + t;
    if x == [] {
      assert s == ['"'] + t;
    } else if x[0] == '"' {
      var rest := DoubleQuotes(x[1..]) + ['"'] + t;
      assert s == ['"', '"'] + rest;
      assert s[2..] == rest;
      ReadQuotedDoubled(x[1..], t);
      assert ['"'] + x[1..] == x;
    } else {
      var rest := DoubleQuotes(x[1..]) + ['"'] + t;
      assert s == [x[0]] + rest;
      assert s[1..] == rest;
      ReadQuotedDoubled(x[1..], t);
      assert [x[0]] + x[1..] == x;
    }
  }

  lemma {:induction false} ReadPlainText(x: string, t: string)
    requires Plain(x) && FieldEnd(t)
    ensures ReadPlain(x + t) == (x, t)
    decreases |x|
  {
    if x != [] {
      assert (x + t)[0] == x[0] && x[0] != ',' && x[0] != '\n';
      assert (x + t)[1..] == x[1..] + t;
      assert Plain(x[1..]) by {
        forall i | 0 <= i < |x[1..]| ensures x[1..][i] != ',' && x[1..][i] != '\n' && x[1..][i] != '"' {
          assert x[1..][i] == x[i + 1];
        }
      }
      ReadPlainText(x[1..], t);
      assert [x[0]] + x[1..] == x;
    } else {
      assert x + t == t;
    }
  }

  /** A quoted field reads back exactly: the outer quotes are dropped and
      every doubled quote becomes one. */
  lemma QuotedFieldRoundTrip(x: string, t: string)
    requires FieldEnd(t)
    ensures ReadField(QuoteField(x) + t) == Some((x, t))
  {
    assert QuoteField(x) + t == ['"'] + (DoubleQuotes(x) + ['"'] + t);
    ReadQuotedDoubled(x, t);
  }

  lemma ReadEncoded(cell: string, text: string, t: string)
    requires Encodes(cell, text) && FieldEnd(t)
    ensures ReadField(cell + t) == Some((text, t))
  {
    if cell == QuoteField(text) {
      QuotedFieldRoundTrip(text, t);
    } else {
      ReadPlainText(text, t);
      if text != [] {
        assert (cell + t)[0] == text[0];
      }
    }
  }

  /** Each cell of `cells` reads back as the text at the same place. */
  predicate EncodesAll(cells: seq<string>, texts: seq<string>)
  {
    |cells| == |texts| && forall i :: 0 <= i < |cells| ==> Encodes(cells[i], texts[i])
  }

  /** How `ParseCsv` continues after reading the first field. */
  lemma ParseAfterField(s: string, f: string, rest: string)
    requires ReadField(s) == Some((f, rest))
    ensures rest == [] ==> ParseCsv(s) == Some([[f]])
    ensures rest != [] && rest[0] == ',' && ParseCsv(rest[1..]).Some? ==>
      ParseCsv(s) == Some([[f] + ParseCsv(rest[1..]).value[0]] + ParseCsv(rest[1..]).value[1..])
    ensures rest != [] && rest[0] == '\n' && ParseCsv(rest[1..]).Some? ==>
      ParseCsv(s) == Some([[f]] + ParseCsv(rest[1..]).value)
  {
  }

  /** A last field followed by the end or by a newline and more records. */
  lemma ReadLastField(cell: string, text: string, t: string, more: seq<seq<string>>)
    requires Encodes(cell, text)
    requires (t == [] && more == []) || (t != [] && t[0] == '\n' && ParseCsv(t[1..]) == Some(more))
    ensures ParseCsv(cell + t) == Some([[text]] + more)
  {
    ReadEncoded(cell, text, t);
    ParseAfterField(cell + t, text, t);
    if t == [] {
      assert [[text]] + more == [[text]];
    }
  }

  /** A field followed by a comma and the rest of its record. */
  lemma ReadFieldThenComma(cell: string, text: string, tail: string, recs: seq<seq<string>>)
    requires Encodes(cell, text) && ParseCsv(tail) == Some(recs)
    ensures ParseCsv(cell + [','] + tail) == Some([[text] + recs[0]] + recs[1..])
  {
    var rest := [','] + tail;
    assert cell + [','] + tail == cell + rest;
    ReadEncoded(cell, text, rest);
    assert rest[1..] == tail;
    ParseAfterField(cell + rest, text, rest);
  }

  /** One record followed by the rest of the document. */
  lemma {:induction false} ReadRecord(cells: seq<string>, texts: seq<string>, t: string, more: seq<seq<string>>)
    requires cells != [] && EncodesAll(cells, texts)
    requires (t == [] && more == []) || (t != [] && t[0] == '\n' && ParseCsv(t[1..]) == Some(more))
    ensures ParseCsv(Join(cells, ",") + t) == Some([texts] + more)
    decreases |cells|
  {
    if |cells| == 1 {
      assert Join(cells, ",") == cells[0];
      assert [texts[0]] == texts;
      ReadLastField(cells[0], texts[0], t, more);
    } else {
      assert EncodesAll(cells[1..], texts[1..]) by {
        forall i | 0 <= i < |cells| - 1 ensures Encodes(cells[1..][i], texts[1..][i]) {
          assert cells[1..][i] == cells[i + 1] && texts[1..][i] == texts[i + 1];
        }
      }
      ReadRecord(cells[1..], texts[1..], t, more);
      ReadNextField(cells, texts, t, more);
    }
  }

  /** The step of `ReadRecord`: the first field, a comma, the other fields. */
  lemma ReadNextField(cells: seq<string>, texts: seq<string>, t: string, more: seq<seq<string>>)
    requires |cells| > 1 && |texts| == |cells| && Encodes(cells[0], texts[0])
    requires ParseCsv(Join(cells[1..], ",") + t) == Some([texts[1..]] + more)
    ensures ParseCsv(Join(cells, ",") + t) == Some([texts] + more)
  {
    var tail := Join(cells[1..], ",") + t;
    assert Join(cells, ",") + t == cells[0] + [','] + tail;
    var recs := [texts[1..]] + more;
    assert recs[0] == texts[1..] && recs[1..] == more;
    ReadFieldThenComma(cells[0], texts[0], tail, recs);
    assert [texts[0]] + texts[1..] == texts;
  }

  /** Records whose cells all encode their texts read back as those texts. */
  lemma {:induction false} ReadRecords(rows: seq<seq<string>>, texts: seq<seq<string>>)
    requires rows != [] && |rows| == |texts|
    requires forall i :: 0 <= i < |rows| ==> rows[i] != [] && EncodesAll(rows[i], texts[i])
    ensures ParseCsv(Join(JoinEach(rows), "\n")) == Some(texts)
    decreases |rows|
  {
    var ls := JoinEach(rows);
    if |rows| == 1 {
      ReadRecord(rows[0], texts[0], [], []);
      assert Join(ls, "\n") == Join(rows[0], ",") + [];
      assert [texts[0]] + [] == texts;
    } else {
      ReadRecords(rows[1..], texts[1..]);
      ReadNextRecord(rows, texts);
    }
  }

  /** The step of `ReadRecords`: the first record, a newline, the rest. */
  lemma ReadNextRecord(rows: seq<seq<string>>, texts: seq<seq<string>>)
    requires |rows| > 1 && |rows| == |texts|
    requires rows[0] != [] && EncodesAll(rows[0], texts[0])
    requires ParseCsv(Join(JoinEach(rows[1..]), "\n")) == Some(texts[1..])
    ensures ParseCsv(Join(JoinEach(rows), "\n")) == Some(texts)
  {
    var t := "\n" + Join(JoinEach(rows[1..]), "\n");
    JoinEachHead(rows);
    assert t[1..] == Join(JoinEach(rows[1..]), "\n");
    ReadRecord(rows[0], texts[0], t, texts[1..]);
    assert [texts[0]] + texts[1..] == texts;
  }

  /** The document of several records is the first record, a newline and
      the document of the others. */
  lemma JoinEachHead(rows: seq<seq<string>>)
    requires |rows| > 1
    ensures Join(JoinEach(rows), "\n") == Join(rows[0], ",") + ("\n" + Join(JoinEach(rows[1..]), "\n"))
  {
    var ls := JoinEach(rows);
    assert ls == [Join(rows[0], ",")] + JoinEach(rows[1..]);
    assert ls[0] == Join(rows[0], ",") && ls[1..] == JoinEach(rows[1..]);
    JoinHead(ls, "\n");
  }

  lemma HeadersArePlain()
    ensures forall i :: 0 <= i < |HEADERS| ==> Plain(HEADERS[i])
  {
  }

  /** The values of each entry's row, in entry order. */
  function AllValues(entries: seq<Entry>, fmt: string -> string): (vs: seq<seq<string>>)
    ensures |vs| == |entries|
    ensures forall i :: 0 <= i < |entries| ==> vs[i] == RowValues(entries[i], fmt)
  {
    if entries == [] then [] else [RowValues(entries[0], fmt)] + AllValues(entries[1..], fmt)
  }

  /** An export whose data rows encode `texts` reads back as the header and
      `texts`. */
  lemma ReadDocument(rows: seq<seq<string>>, texts: seq<seq<string>>)
    requires |rows| == |texts|
    requires forall i :: 0 <= i < |rows| ==> rows[i] != [] && EncodesAll(rows[i], texts[i])
    ensures ParseCsv(Join(Lines(HEADERS, rows), "\n")) == Some([HEADERS] + texts)
  {
    var all, allTexts := [HEADERS] + rows, [HEADERS] + texts;
    assert Lines(HEADERS, rows) == JoinEach(all);
    HeadersArePlain();
    assert forall i :: 0 < i < |all| ==> all[i] == rows[i - 1] && allTexts[i] == texts[i - 1];
    ReadRecords(all, allTexts);
  }

  /** A fully quoted row encodes the entry's values. */
  lemma RowEncodes(e: Entry, fmt: string -> string)
    ensures Row(e, fmt) != [] && EncodesAll(Row(e, fmt), RowValues(e, fmt))
  {
  }

  /** A row as written encodes the entry's values when its unquoted fields
      are plain. */
  lemma RowAsWrittenEncodes(e: Entry, fmt: string -> string)
    requires Plain(e.model) && Plain(GenderLabel(e.genderBias)) && Plain(fmt(e.createdAt)) && Plain(OrEmpty(e.imageUrl))
    ensures RowAsWritten(e, fmt) != [] && EncodesAll(RowAsWritten(e, fmt), RowValues(e, fmt))
  {
  }

  /** The export reads back as the header followed by one record per entry,
      in entry order, each holding exactly that entry's six values. */
  lemma CsvRoundTrip(entries: seq<Entry>, fmt: string -> string)
    ensures ParseCsv(Csv(entries, fmt)) == Some([HEADERS] + AllValues(entries, fmt))
  {
    var rows, texts := Rows(entries, fmt), AllValues(entries, fmt);
    forall i | 0 <= i < |rows| ensures rows[i] != [] && EncodesAll(rows[i], texts[i]) {
      RowEncodes(entries[i], fmt);
    }
    ReadDocument(rows, texts);
  }

  /** The export as written reads back correctly whenever its unquoted
      fields (model, gender label, date text, image address) are free of
      commas, newlines and quotes: then each entry gives one record of its
      six values, with missing notes read as the empty string. */
  lemma CsvAsWrittenRoundTrip(entries: seq<Entry>, fmt: string -> string)
    requires forall e :: e in entries ==>
      Plain(e.model) && Plain(GenderLabel(e.genderBias)) && Plain(fmt(e.createdAt)) && Plain(OrEmpty(e.imageUrl))
    ensures ParseCsv(CsvAsWritten(entries, fmt)) == Some([HEADERS] + AllValues(entries, fmt))
  {
    var rows, texts := RowsAsWritten(entries, fmt), AllValues(entries, fmt);
    forall i | 0 <= i < |rows| ensures rows[i] != [] && EncodesAll(rows[i], texts[i]) {
      assert entries[i] in entries;
      RowAsWrittenEncodes(entries[i], fmt);
    }
    ReadDocument(rows, texts);
  }

  /** As written, a date whose text contains a comma, such as the `it-IT`
      form "17/10/2026, 14:30:00", splits into two fields, so the row reads
      back with seven fields against six headers. */
  lemma DateCommaSplitsRow(e: Entry, fmt: string -> string, day: string, time: string)
    requires fmt(e.createdAt) == day + "," + time
    requires Plain(day) && Plain(time)
    requires Plain(e.model) && Plain(GenderLabel(e.genderBias)) && Plain(OrEmpty(e.imageUrl))
    ensures ParseCsv(CsvAsWritten([e], fmt)) ==
      Some([HEADERS, [e.prompt, e.model, GenderLabel(e.genderBias), OrEmpty(e.notes), day, time, OrEmpty(e.imageUrl)]])
    ensures |ParseCsv(CsvAsWritten([e], fmt)).value[1]| == 7 != |HEADERS|
  {
    var row := RowAsWritten(e, fmt);
    var split := [row[0], row[1], row[2], row[3], day, time, row[5]];
    var texts := [e.prompt, e.model, GenderLabel(e.genderBias), OrEmpty(e.notes), day, time, OrEmpty(e.imageUrl)];
    assert Join(row, ",") == Join(split, ",") by {
      assert row == row[..4] + [day + "," + time] + row[5..];
      assert split == row[..4] + [day, time] + row[5..];
      JoinSplitsPart(row[..4], day, time, row[5..], ",");
    }
    assert Lines(HEADERS, RowsAsWritten([e], fmt)) == JoinEach([HEADERS, split]);
    forall i | 0 <= i < 7 ensures Encodes(split[i], texts[i]) {
      if i == 0 || i == 3 {
      }
    }
    HeadersArePlain();
    ReadRecords([HEADERS, split], [HEADERS, texts]);
  }
}
