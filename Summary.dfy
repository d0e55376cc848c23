/** The read-only summary (`FormSummary`): which entries of a record become
    list rows, in which order, and how each value is written. */
module Summary {
  import opened Strings
  import Form

  /** A value of a record entry as the summary sees it: `null`, a string, or
      an array of strings. */
  datatype Value = Null | Str(s: string) | List(items: seq<string>)

  /** One `[key, value]` pair of `Object.entries(data)`. */
  datatype Entry = Entry(key: string, value: Value)

  /** One list item: the bold key and the rendered value. */
  datatype Row = Row(key: string, text: string)

  /** An entry is rendered unless its value is `null` or exactly the empty
      string; an array is never `=== ''`, so every array is rendered. */
  predicate Shown(v: Value) {
    !(v == Null || v == Str(""))
  }

  /** A rendered value: an array is joined with ", ", a string is written as is. */
  function Display(v: Value): (t: string)
    requires v != Null
    ensures v.Str? ==> t == v.s
    ensures v.List? && |v.items| == 1 ==> t == v.items[0]
    ensures v.List? && v.items == [] ==> t == []
  {
    match v
    case Str(s) => s
    case List(items) => Join(items, ", ")
  }

  /** The row of a rendered entry. */
  function RowOf(e: Entry): Row
    requires e.value != Null
  {
    Row(e.key, Display(e.value))
  }

  /** The text of a list item, `key: value`. */
  function Line(r: Row): string {
    r.key + ": " + r.text
  }

  /** The rows of `Object.entries(data).map(...)`: one per rendered entry,
      in entry order. */
  function Rows(entries: seq<Entry>): (r: seq<Row>)
    ensures |r| <= |entries|
  {
    if entries == [] then []
    else (if Shown(entries[0].value) then [RowOf(entries[0])] else []) + Rows(entries[1..])
  }

  /** The positions, from `from` on, of the rendered entries, in increasing
      order: an independent account of which entries the summary keeps. */
  function KeptFrom(entries: seq<Entry>, from: nat): (idx: seq<nat>)
    requires from <= |entries|
    ensures forall k :: 0 <= k < |idx| ==> from <= idx[k] < |entries|
    ensures forall k, l :: 0 <= k < l < |idx| ==> idx[k] < idx[l]
    ensures forall i :: from <= i < |entries| ==> (i in idx <==> Shown(entries[i].value))
    decreases |entries| - from
  {
    if from == |entries| then []
    else if Shown(entries[from].value) then [from] + KeptFrom(entries, from + 1)
    else KeptFrom(entries, from + 1)
  }

  /** The positions of all rendered entries. */
  function KeptIndices(entries: seq<Entry>): seq<nat> {
    KeptFrom(entries, 0)
  }

  /** The rows of the entries from `from` on are the rows of the kept
      entries from `from` on, in entry order. */
  lemma {:induction false} RowsFollowKeptFrom(entries: seq<Entry>, from: nat)
    requires from <= |entries|
    ensures |Rows(entries[from..])| == |KeptFrom(entries, from)|
    ensures forall k ::
      0 <= k < |Rows(entries[from..])| ==> Rows(entries[from..])[k] == RowOf(entries[KeptFrom(entries, from)[k]])
    decreases |entries| - from
  {
    if from < |entries| {
      RowsFollowKeptFrom(entries, from + 1);
      assert entries[from..][1..] == entries[from + 1..];
      assert entries[from..][0] == entries[from];
      if Shown(entries[from].value) {
        assert Rows(entries[from..]) == [RowOf(entries[from])] + Rows(entries[from + 1..]);
        assert KeptFrom(entries, from) == [from] + KeptFrom(entries, from + 1);
      } else {
        assert Rows(entries[from..]) == Rows(entries[from + 1..]);
        assert KeptFrom(entries, from) == KeptFrom(entries, from + 1);
      }
    }
  }

  /** The rows are exactly the rows of the kept entries, in entry order:
      one row per rendered entry and no other. */
  lemma RowsFollowKeptIndices(entries: seq<Entry>)
    ensures |Rows(entries)| == |KeptIndices(entries)|
    ensures forall k ::
      0 <= k < |Rows(entries)| ==> Rows(entries)[k] == RowOf(entries[KeptIndices(entries)[k]])
  {
    RowsFollowKeptFrom(entries, 0);
    assert entries[0..] == entries;
  }

  /** The keys of the entries are pairwise different, as those of an object are. */
  predicate UniqueKeys(entries: seq<Entry>) {
    forall i, j :: 0 <= i < j < |entries| ==> entries[i].key != entries[j].key
  }

  /** A summary row with key `key` exists. */
  predicate HasRow(rows: seq<Row>, key: string) {
    exists k :: 0 <= k < |rows| && rows[k].key == key
  }

  /** With distinct keys, an entry has a row exactly when it is rendered,
      and that row carries its rendered value. */
  lemma RowForKey(entries: seq<Entry>, i: nat)
    requires UniqueKeys(entries) && i < |entries|
    ensures HasRow(Rows(entries), entries[i].key) <==> Shown(entries[i].value)
    ensures forall k ::
      0 <= k < |Rows(entries)| && Rows(entries)[k].key == entries[i].key ==> Rows(entries)[k] == RowOf(entries[i])
  {
    var r := Rows(entries);
    var idx := KeptIndices(entries);
    RowsFollowKeptIndices(entries);
    if Shown(entries[i].value) {
      var k :| 0 <= k < |idx| && idx[k] == i;
      assert r[k].key == entries[i].key;
    }
    forall k | 0 <= k < |r| && r[k].key == entries[i].key
      ensures idx[k] == i && Shown(entries[i].value) && r[k] == RowOf(entries[i])
    {
      assert idx[k] in idx;
      assert entries[idx[k]].key == entries[i].key;
    }
  }

  /** With distinct keys, the rows of two entries come in the entries' order. */
  lemma RowsKeepEntryOrder(entries: seq<Entry>, i: nat, j: nat, k: nat, l: nat)
    requires UniqueKeys(entries) && i < j < |entries|
    requires k < |Rows(entries)| && Rows(entries)[k].key == entries[i].key
    requires l < |Rows(entries)| && Rows(entries)[l].key == entries[j].key
    ensures k < l
  {
    var idx := KeptIndices(entries);
    RowsFollowKeptIndices(entries);
    assert idx[k] == i;
    assert idx[l] == j;
  }

  /** The rows of entries placed one after the other are the rows of each
      part one after the other. */
  lemma {:induction false} RowsAppend(a: seq<Entry>, b: seq<Entry>)
    ensures Rows(a + b) == Rows(a) + Rows(b)
  {
    if a == [] {
      assert a + b == b;
    } else {
      var h := if Shown(a[0].value) then [RowOf(a[0])] else [];
      assert (a + b)[0] == a[0];
      assert (a + b)[1..] == a[1..] + b;
      RowsAppend(a[1..], b);
      calc {
        Rows(a + b);
        h + Rows(a[1..] + b);
        h + (Rows(a[1..]) + Rows(b));
        (h + Rows(a[1..])) + Rows(b);
      }
    }
  }

  // The draft the form hands over.

  /** The key of a field in the draft record. */
  function Key(f: Form.Field): string {
    match f
    case FullName => "fullName"
    case Email => "email"
    case PhoneNumber => "phoneNumber"
    case Position => "position"
    case RelevantExperience => "relevantExperience"
    case PortfolioURL => "portfolioURL"
    case ManagementExperience => "managementExperience"
    case AdditionalSkills => "additionalSkills"
    case InterviewTime => "interviewTime"
  }

  /** The value a field of the draft holds. */
  function FieldValue(d: Form.Draft, f: Form.Field): Value {
    if f == Form.AdditionalSkills then List(d.additionalSkills) else Str(Form.Text(d, f))
  }

  /** `Object.entries(formData)`: the draft's fields, keyed by name, in the
      order the initial state declares them. */
  function Entries(d: Form.Draft): (es: seq<Entry>)
    ensures |es| == |Form.FieldOrder|
    ensures forall i :: 0 <= i < |es| ==> es[i] == Entry(Key(Form.FieldOrder[i]), FieldValue(d, Form.FieldOrder[i]))
    ensures UniqueKeys(es)
  {
    seq(|Form.FieldOrder|, i requires 0 <= i < |Form.FieldOrder| => Entry(Key(Form.FieldOrder[i]), FieldValue(d, Form.FieldOrder[i])))
  }

  /** For a draft, a text field is listed exactly when it is not the empty
      string; the skills are always listed, even when none is checked. */
  lemma DraftRow(d: Form.Draft, f: Form.Field)
    ensures HasRow(Rows(Entries(d)), Key(f)) <==> f == Form.AdditionalSkills || Form.Text(d, f) != ""
  {
    RowForKey(Entries(d), Form.FieldIndex(f));
  }

  /** A listed text field shows its text unchanged; the listed skills are
      joined with ", ". */
  lemma DraftRowText(d: Form.Draft, f: Form.Field)
    ensures forall k :: 0 <= k < |Rows(Entries(d))| && Rows(Entries(d))[k].key == Key(f) ==>
      Rows(Entries(d))[k].text == if f == Form.AdditionalSkills then Join(d.additionalSkills, ", ") else Form.Text(d, f)
  {
    RowForKey(Entries(d), Form.FieldIndex(f));
  }

  /** The rows of a draft follow the order in which the fields are declared. */
  lemma DraftRowOrder(d: Form.Draft, f: Form.Field, g: Form.Field, k: nat, l: nat)
    requires Form.FieldIndex(f) < Form.FieldIndex(g)
    requires k < |Rows(Entries(d))| && Rows(Entries(d))[k].key == Key(f)
    requires l < |Rows(Entries(d))| && Rows(Entries(d))[l].key == Key(g)
    ensures k < l
  {
    RowsKeepEntryOrder(Entries(d), Form.FieldIndex(f), Form.FieldIndex(g), k, l);
  }

  /** A manager's draft leaves the portfolio URL empty, and the summary
      lists no row for it. */
  lemma ManagerSummaryOmitsPortfolio(d: Form.Draft)
    requires d.position == "Manager" && d.portfolioURL == ""
    ensures !HasRow(Rows(Entries(d)), "portfolioURL")
    ensures HasRow(Rows(Entries(d)), "position")
  {
    DraftRow(d, Form.PortfolioURL);
    DraftRow(d, Form.Position);
  }

  /** A draft the form accepted lists every always-required field and the
      skills: none of them can be empty once it passed validation. */
  lemma SubmittedDraftRows(d: Form.Draft)
    requires Form.Errors(d) == map[]
    ensures HasRow(Rows(Entries(d)), "fullName")
    ensures HasRow(Rows(Entries(d)), "email")
    ensures HasRow(Rows(Entries(d)), "phoneNumber")
    ensures HasRow(Rows(Entries(d)), "position")
    ensures HasRow(Rows(Entries(d)), "additionalSkills")
    ensures HasRow(Rows(Entries(d)), "interviewTime")
  {
    Form.SubmittedDraftIsComplete(d);
    FilledDraftRows(d);
  }

  /** A draft whose always-required fields are not blank lists each of them
      and the skills. */
  lemma FilledDraftRows(d: Form.Draft)
    requires !Blank(d.fullName) && !Blank(d.email) && !Blank(d.phoneNumber)
    requires !Blank(d.position) && !Blank(d.interviewTime)
    ensures HasRow(Rows(Entries(d)), "fullName")
    ensures HasRow(Rows(Entries(d)), "email")
    ensures HasRow(Rows(Entries(d)), "phoneNumber")
    ensures HasRow(Rows(Entries(d)), "position")
    ensures HasRow(Rows(Entries(d)), "additionalSkills")
    ensures HasRow(Rows(Entries(d)), "interviewTime")
  {
    assert Blank("");
    DraftRow(d, Form.FullName);
    DraftRow(d, Form.Email);
    DraftRow(d, Form.PhoneNumber);
    DraftRow(d, Form.Position);
    DraftRow(d, Form.AdditionalSkills);
    DraftRow(d, Form.InterviewTime);
  }

  // Formatting.

  /** Two skills are written with ", " between them. */
  lemma SkillsExample()
    ensures Display(List(["JavaScript", "Python"])) == "JavaScript, Python"
    ensures Line(Row("additionalSkills", Display(List(["JavaScript", "Python"]))))
        == "additionalSkills: JavaScript, Python"
  {
    assert ["JavaScript", "Python"][1..] == ["Python"];
  }

  /** Only `null` and the empty string are dropped: a blank string and an
      empty array are still listed. */
  lemma ShownExamples()
    ensures !Shown(Null) && !Shown(Str(""))
    ensures Shown(Str(" ")) && Shown(List([]))
    ensures Rows([Entry("a", Str(" ")), Entry("b", List([])), Entry("c", Str(""))]) == [Row("a", " "), Row("b", "")]
  {
  }

  /** Checking one more box adds ", " and that skill to the listed skills. */
  lemma CheckedSkillAppendsToRow(skills: seq<string>, value: string)
    requires skills != []
    ensures Display(List(Form.ToggledSkills(skills, value, true))) == Display(List(skills)) + ", " + value
  {
    JoinSnoc(skills, value, ", ");
  }
}
