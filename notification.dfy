/** The e-mail `send_email_notification` (backend/main.py) sends when a lead
    is captured.  The SMTP session is a parameter, `deliver`, that answers
    whether the composed message went out; any failure in it is swallowed
    and reported as "not sent". */
module Notification {
  import opened Text
  import opened Protocol
  import opened LeadStore

  /** The sender and recipient addresses read from the environment; an
      unset variable reads as "". */
  datatype MailConfig = MailConfig(sender: string, recipient: string)

  /** The message: addresses, subject, and the table of the HTML body as
      label/value pairs.  The capture time in the body's footer is not
      part of this model. */
  datatype Mail = Mail(sender: string, recipient: string, subject: string, table: seq<(string, string)>)

  const SubjectPrefix: string := "🏠 Novo Lead Capturado - "

  /** The labels of the table's six rows, in the order of the CSV's lead
      columns. */
  const Labels: seq<string> := ["Nome:", "Email:", "Interesse:", "Orçamento:", "Postcode:", "Detalhes:"]

  /** Python's `lead_data.get(key, 'N/A')`: the mail shows "N/A" for a key
      the lead lacks, whereas the CSV row holds "". */
  function ShownField(lead: Lead, key: string): string {
    Get(lead, key, "N/A")
  }

  /** Both addresses are needed; otherwise the notification is skipped. */
  predicate Configured(cfg: MailConfig) {
    cfg.sender != "" && cfg.recipient != ""
  }

  /** The message built for a lead: the interest, upper-cased, in the
      subject and the six fields in the body's table. */
  function ComposeMail(cfg: MailConfig, lead: Lead): (m: Mail)
    ensures m.sender == cfg.sender && m.recipient == cfg.recipient
    ensures |m.subject| >= |SubjectPrefix| && m.subject[..|SubjectPrefix|] == SubjectPrefix
    ensures m.subject[|SubjectPrefix|..] == Upper(ShownField(lead, "tipo_interesse"))
    ensures |m.table| == |Labels| == |LeadKeys|
    ensures forall c :: 0 <= c < |m.table| ==> m.table[c].0 == Labels[c]
    ensures forall c :: 0 <= c < |m.table| && LeadKeys[c] != "tipo_interesse" ==>
      m.table[c].1 == ShownField(lead, LeadKeys[c])
    ensures LeadKeys[2] == "tipo_interesse" && m.table[2].1 == m.subject[|SubjectPrefix|..]
  {
    var interest := Upper(ShownField(lead, "tipo_interesse"));
    Mail(cfg.sender, cfg.recipient, SubjectPrefix + interest,
      [ ("Nome:", ShownField(lead, "nome")),
        ("Email:", ShownField(lead, "email")),
        ("Interesse:", interest),
        ("Orçamento:", ShownField(lead, "orcamento")),
        ("Postcode:", ShownField(lead, "postcode")),
        ("Detalhes:", ShownField(lead, "detalhes_adicionais")) ])
  }

  /** `send_email_notification`: true exactly when both addresses are set
      and delivery of the composed message succeeds; an unconfigured
      server never attempts delivery. */
  function SendNotification(cfg: MailConfig, lead: Lead, deliver: Mail -> bool): (sent: bool)
    ensures sent ==> Configured(cfg)
    ensures Configured(cfg) ==> (sent <==> deliver(ComposeMail(cfg, lead)))
  {
    Configured(cfg) && deliver(ComposeMail(cfg, lead))
  }

  /** The mail shows each lead field the CSV row holds, the interest
      upper-cased; a field the lead lacks is "N/A" in the mail and "" in
      the row. */
  lemma MailAgreesWithRow(cfg: MailConfig, lead: Lead, timestamp: string, emailValid: bool, postcodeValid: bool)
    ensures var m, row := ComposeMail(cfg, lead), LeadRow(lead, timestamp, emailValid, postcodeValid);
      forall c :: 1 <= c < 7 ==>
        && (Header[c] in lead ==> m.table[c - 1].1 == if c == 3 then Upper(row[c]) else row[c])
        && (Header[c] !in lead ==> row[c] == "" && m.table[c - 1].1 == "N/A")
  {
    var m := ComposeMail(cfg, lead);
    assert Upper("N/A") == "N/A";
    forall c | 1 <= c < 7
      ensures Header[c] == LeadKeys[c - 1]
    {
    }
  }

  /** The mail and the CSV row disagree on a missing field: the mail shows
      "N/A", the row holds "". */
  lemma MissingFieldShownAsNA(cfg: MailConfig, lead: Lead)
    requires "nome" !in lead
    ensures ComposeMail(cfg, lead).table[0] == ("Nome:", "N/A")
    ensures Field(lead, "nome") == ""
  {
  }
}
