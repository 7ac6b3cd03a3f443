/** The leads file of backend/main.py: a CSV file created with a header row
    at start-up, appended to by `save_lead_to_csv` and read back by the
    `/api/leads` endpoint through `csv.DictReader`.  The file is modelled as
    its list of rows, each a list of fields; the CSV quoting that makes a
    field survive the write and the read is taken as given. */
module LeadStore {
  import opened Wrappers
  import opened Protocol

  /** The header row written at start-up: nine columns. */
  const Header: seq<string> := [
    "timestamp", "nome", "email", "tipo_interesse", "orcamento",
    "postcode", "detalhes_adicionais", "email_valido", "postcode_valido"]

  /** The six lead fields, in the order they are written. */
  const LeadKeys: seq<string> := Header[1..7]

  /** The flag columns hold "Sim" or "Não". */
  function YesNo(b: bool): (s: string)
    ensures s == "Sim" || s == "Não"
    ensures (s == "Sim") <==> b
  {
    if b then "Sim" else "Não"
  }

  /** The row `save_lead_to_csv` appends: the timestamp, the six lead fields
      (a missing key is written as ""), then the two validity flags. */
  function LeadRow(lead: Lead, timestamp: string, emailValid: bool, postcodeValid: bool): (row: seq<string>)
    ensures |row| == |Header|
    ensures row[0] == timestamp
    ensures forall c :: 1 <= c < 7 ==> row[c] == Field(lead, Header[c])
    ensures row[7] == YesNo(emailValid) && row[8] == YesNo(postcodeValid)
  {
    [timestamp] + seq(6, c requires 0 <= c < 6 => Field(lead, LeadKeys[c]))
    + [YesNo(emailValid), YesNo(postcodeValid)]
  }

  /** One record as `csv.DictReader` builds it: each header name maps to the
      field below it; when a name repeats, the later column wins. */
  function RowDict(names: seq<string>, row: seq<string>): (d: map<string, string>)
    requires |names| == |row|
    ensures forall key :: key in d <==> key in names
    decreases |names|
  {
    if names == [] then map[]
    else
      var n := |names| - 1;
      RowDict(names[..n], row[..n])[names[n] := row[n]]
  }

  /** The field under a name that does not repeat further right is the
      value the record holds for that name. */
  lemma {:induction false} RowDictAt(names: seq<string>, row: seq<string>, c: nat)
    requires |names| == |row| && c < |names|
    requires forall c' :: c < c' < |names| ==> names[c'] != names[c]
    ensures RowDict(names, row)[names[c]] == row[c]
    decreases |names|
  {
    var n := |names| - 1;
    if c < n {
      var front := names[..n];
      assert front[c] == names[c];
      assert forall c' :: c < c' < |front| ==> front[c'] == names[c'];
      RowDictAt(front, row[..n], c);
      assert names[n] != names[c];
    }
  }

  /** Every row has as many fields as the first one, which `DictReader`
      takes as the header. */
  predicate Rectangular(rows: seq<seq<string>>) {
    forall i :: 0 <= i < |rows| ==> |rows[i]| == |rows[0]|
  }

  /** `list(csv.DictReader(f))`: the first row names the columns and every
      later row becomes one record. */
  function ReadLeads(rows: seq<seq<string>>): (leads: seq<map<string, string>>)
    requires Rectangular(rows)
    ensures rows == [] ==> leads == []
    ensures rows != [] ==> |leads| == |rows| - 1
    ensures forall k :: 0 <= k < |leads| ==> leads[k] == RowDict(rows[0], rows[k + 1])
  {
    if rows == [] then []
    else seq(|rows| - 1, k requires 0 <= k < |rows| - 1 => RowDict(rows[0], rows[k + 1]))
  }

  /** The body of `/api/leads`. */
  datatype LeadsReport = LeadsReport(leads: seq<map<string, string>>, total: nat)

  // ---------------------------------------------------------------------
  // Properties of the format
  // ---------------------------------------------------------------------

  lemma HeaderNamesDistinct()
    ensures forall c, c' :: 0 <= c < c' < |Header| ==> Header[c] != Header[c']
  {
  }

  /** Under pairwise distinct names every field reads back under its own
      name. */
  lemma DistinctNamesReadBack(names: seq<string>, row: seq<string>)
    requires |names| == |row|
    requires forall c, c' :: 0 <= c < c' < |names| ==> names[c] != names[c']
    ensures forall c :: 0 <= c < |names| ==> RowDict(names, row)[names[c]] == row[c]
  {
    forall c | 0 <= c < |names| ensures RowDict(names, row)[names[c]] == row[c] {
      RowDictAt(names, row, c);
    }
  }

  /** A saved lead reads back under the header: each of the six fields
      under its own name (missing keys as ""), the timestamp, and the two
      flags as "Sim"/"Não". */
  lemma SavedLeadReadsBack(lead: Lead, timestamp: string, emailValid: bool, postcodeValid: bool)
    ensures var rec := RowDict(Header, LeadRow(lead, timestamp, emailValid, postcodeValid));
      && (forall key :: key in rec <==> key in Header)
      && (forall c :: 1 <= c < 7 ==> rec[Header[c]] == Field(lead, Header[c]))
      && rec["timestamp"] == timestamp
      && rec["email_valido"] == YesNo(emailValid)
      && rec["postcode_valido"] == YesNo(postcodeValid)
  {
    var row := LeadRow(lead, timestamp, emailValid, postcodeValid);
    HeaderNamesDistinct();
    DistinctNamesReadBack(Header, row);
    assert Header[0] == "timestamp" && Header[7] == "email_valido" && Header[8] == "postcode_valido";
  }

  /** Appending a row to a file that has a header adds exactly one record,
      the new row read under that header, and leaves the others alone. */
  lemma AppendAddsRecord(rows: seq<seq<string>>, row: seq<string>)
    requires Rectangular(rows) && rows != [] && |row| == |rows[0]|
    ensures Rectangular(rows + [row])
    ensures ReadLeads(rows + [row]) == ReadLeads(rows) + [RowDict(rows[0], row)]
  {
    var after := rows + [row];
    assert after[0] == rows[0];
    assert forall k :: 1 <= k < |rows| ==> after[k] == rows[k];
  }

  /** A file written with the header and then a sequence of saves reads back
      one record per save, in order. */
  lemma {:induction false} SavesReadBack(saved: seq<seq<string>>)
    requires forall i :: 0 <= i < |saved| ==> |saved[i]| == |Header|
    ensures Rectangular([Header] + saved)
    ensures ReadLeads([Header] + saved) == seq(|saved|, k requires 0 <= k < |saved| => RowDict(Header, saved[k]))
  {
    var rows := [Header] + saved;
    assert forall k :: 0 <= k < |saved| ==> rows[k + 1] == saved[k];
  }

  /** Without the header row (the file was created by an append rather than
      at start-up) the first saved lead is taken for the header and is lost
      from the listing. */
  lemma HeaderlessFileLosesFirstLead(first: seq<string>, rest: seq<seq<string>>)
    requires |first| == |Header| && forall i :: 0 <= i < |rest| ==> |rest[i]| == |Header|
    ensures Rectangular([first] + rest)
    ensures |ReadLeads([first] + rest)| == |rest|
    ensures forall rec :: rec in ReadLeads([first] + rest) ==> forall key :: key in rec <==> key in first
  {
  }

  // ---------------------------------------------------------------------
  // The file
  // ---------------------------------------------------------------------

  /** The file `data/leads_imobiliaria.csv`: whether it exists, and its
      rows.  The rows are those the system writes, so all are nine wide. */
  class LeadCsv {
    var onDisk: bool
    var rows: seq<seq<string>>

    ghost predicate Valid()
      reads this
    {
      && (!onDisk ==> rows == [])
      && forall i :: 0 <= i < |rows| ==> |rows[i]| == |Header|
    }

    /** The file as found on disk before the application starts. */
    constructor (onDisk0: bool, rows0: seq<seq<string>>)
      requires !onDisk0 ==> rows0 == []
      requires forall i :: 0 <= i < |rows0| ==> |rows0[i]| == |Header|
      ensures Valid()
      ensures onDisk == onDisk0 && rows == rows0
    {
      onDisk := onDisk0;
      rows := rows0;
    }

    /** The start-up hook (`lifespan`): a missing file is created holding
      only the header; an existing file is left untouched. */
    method CreateIfMissing()
      requires Valid()
      modifies this
      ensures Valid() && onDisk
      ensures old(onDisk) ==> rows == old(rows)
      ensures !old(onDisk) ==> rows == [Header] && GetLeads() == LeadsReport([], 0)
    {
      if !onDisk {
        onDisk := true;
        rows := [Header];
      }
    }

    /** `save_lead_to_csv`: open for append (creating the file if it is
      missing) and add the lead's row.  The timestamp is the caller's
      `datetime.now().isoformat()`. */
    method SaveLead(lead: Lead, timestamp: string, emailValid: bool, postcodeValid: bool)
      requires Valid()
      modifies this
      ensures Valid() && onDisk
      ensures rows == old(rows) + [LeadRow(lead, timestamp, emailValid, postcodeValid)]
      ensures old(rows) != [] ==>
        GetLeads().leads == old(GetLeads().leads) + [RowDict(rows[0], LeadRow(lead, timestamp, emailValid, postcodeValid))]
    {
      var row := LeadRow(lead, timestamp, emailValid, postcodeValid);
      if rows != [] {
        AppendAddsRecord(rows, row);
      }
      onDisk := true;
      rows := rows + [row];
    }

    /** `/api/leads`: every record of the file, and how many there are; no
      file reads as no leads. */
    function GetLeads(): (r: LeadsReport)
      requires Valid()
      reads this
      ensures r.total == |r.leads|
      ensures !onDisk ==> r.leads == []
      ensures onDisk && rows != [] ==> |r.leads| == |rows| - 1
    {
      var leads := if onDisk then ReadLeads(rows) else [];
      LeadsReport(leads, |leads|)
    }
  }

  /** From a missing file, start-up followed by two saves lists exactly the
      two leads, each under the header's names. */
  method TwoSavesListed(lead1: Lead, lead2: Lead, t1: string, t2: string)
    returns (report: LeadsReport)
    ensures report.total == |report.leads| == 2
    ensures "email" in report.leads[0] && report.leads[0]["email"] == Field(lead1, "email")
    ensures "email" in report.leads[1] && report.leads[1]["email"] == Field(lead2, "email")
  {
    var store := new LeadCsv(false, []);
    store.CreateIfMissing();
    store.SaveLead(lead1, t1, true, false);
    assert store.rows[0] == Header;
    store.SaveLead(lead2, t2, false, true);
    report := store.GetLeads();
    SavedEmailReadsBack(lead1, t1, true, false);
    SavedEmailReadsBack(lead2, t2, false, true);
  }

  lemma SavedEmailReadsBack(lead: Lead, timestamp: string, emailValid: bool, postcodeValid: bool)
    ensures var rec := RowDict(Header, LeadRow(lead, timestamp, emailValid, postcodeValid));
      "email" in rec && rec["email"] == Field(lead, "email")
  {
    var row := LeadRow(lead, timestamp, emailValid, postcodeValid);
    HeaderNamesDistinct();
    assert Header[2] == "email";
    RowDictAt(Header, row, 2);
  }
}
