/**
 * The pure decisions behind customer e-mail: which slot a notification type occupies,
 * who its audience is, and what an SMTP failure proves (section 4.2.1 of RFC 5321).
 */
module EmailPolicy {
  import opened Basics

  /** A booking has one slot for its receipt and one for every other customer e-mail. */
  datatype Slot = Receipt | Terminal

  function CustomerEmailSlot(kind: string): Slot {
    if kind == "BOOKING_CREATED" then Receipt else Terminal
  }

  /** The columns of a notification, and of the user it names, that decide its audience. */
  datatype Addressee = Addressee(
    audienceRole: Option<string>,
    guestBooking: bool,
    userRole: Option<string>,
    userDeleted: bool,
    hasDriver: bool)

  const CUSTOMER := "CUSTOMER"

  // JavaScript `a || b` on nullable strings: null and "" are both falsy.
  function OrElse(a: Option<string>, b: Option<string>): Option<string> {
    if a.Some? && a.value != "" then a else b
  }

  /** The audience as the sending worker computes it; its query joins undeleted users only. */
  function EmailAudience(a: Addressee): Option<string> {
    var liveRole := if a.userDeleted then None else a.userRole;
    OrElse(a.audienceRole,
           OrElse(if a.guestBooking then Some(CUSTOMER) else None,
                  OrElse(liveRole, if a.hasDriver then Some("DRIVER") else None)))
  }

  /** The audience as the send-history query computes it; it joins deleted users as well. */
  function HistoryAudience(a: Addressee): Option<string> {
    if a.audienceRole.Some? then a.audienceRole
    else if a.guestBooking then Some(CUSTOMER)
    else a.userRole
  }

  // Sent but never counted: an empty audience role in front of a customer.
  predicate SentUncounted(a: Addressee) {
    a.audienceRole == Some("") && (a.guestBooking || (!a.userDeleted && a.userRole == Some(CUSTOMER)))
  }

  // Counted though no longer sent: a deleted customer without an audience role.
  predicate CountedUnsent(a: Addressee) {
    a.audienceRole.None? && !a.guestBooking && a.userDeleted && a.userRole == Some(CUSTOMER)
  }

  /**
   * The gate that sends and the query that counts earlier sends must mean the same people.
   * They do, with exactly two exceptions.
   */
  lemma GateAndHistoryAgree(a: Addressee)
    ensures (EmailAudience(a) == Some(CUSTOMER) <==> HistoryAudience(a) == Some(CUSTOMER))
        <==> !SentUncounted(a) && !CountedUnsent(a)
  {
    assert CUSTOMER[0] == 'C' && "DRIVER"[0] == 'D';
  }

  /** Who is sent to, and who is counted, in the columns of the notification and its user. */
  lemma AudiencesExactly(a: Addressee)
    ensures EmailAudience(a) == Some("CUSTOMER")
       <==> (a.audienceRole == Some("CUSTOMER")
             || ((a.audienceRole == None || a.audienceRole == Some(""))
                 && (a.guestBooking || (!a.userDeleted && a.userRole == Some("CUSTOMER")))))
    ensures HistoryAudience(a) == Some("CUSTOMER")
       <==> (a.audienceRole == Some("CUSTOMER")
             || (a.audienceRole == None && (a.guestBooking || a.userRole == Some("CUSTOMER"))))
  {
    assert "CUSTOMER"[0] == 'C' && "DRIVER"[0] == 'D';
  }

  /** The direction safety needs: whoever is sent to is counted, unless the audience role is empty. */
  lemma SentIsCounted(a: Addressee)
    requires a.audienceRole != Some("") && EmailAudience(a) == Some(CUSTOMER)
    ensures HistoryAudience(a) == Some(CUSTOMER)
  {
    GateAndHistoryAgree(a);
  }

  // ---------------------------------------------------------------- SMTP evidence

  datatype Outcome = Sending | Accepted | NotAccepted | Unknown

  /** A number as JavaScript's Number() yields it from the transport's response code. */
  datatype JsNumber = NaN | Num(n: real)

  datatype Evidence = Evidence(outcome: Outcome, errorCode: string, command: Option<string>, responseCode: Option<int>)

  const REJECT_COMMANDS: set<string> :=
    {"CONN", "EHLO", "HELO", "STARTTLS", "AUTH", "MAIL FROM", "RCPT TO", "DATA"}

  function UpperChar(c: char): char {
    if 'a' <= c <= 'z' then c - 'a' + 'A' else c
  }

  function ToUpper(s: string): (u: string)
    ensures |u| == |s|
    ensures forall i :: 0 <= i < |s| ==> u[i] == if 'a' <= s[i] <= 'z' then s[i] - 'a' + 'A' else s[i]
  {
    seq(|s|, i requires 0 <= i < |s| => UpperChar(s[i]))
  }

  // The shape /^[A-Z0-9_]{1,80}$/ of an error code worth keeping.
  predicate WellFormedCode(code: string) {
    1 <= |code| <= 80
    && forall i :: 0 <= i < |code| ==> 'A' <= code[i] <= 'Z' || '0' <= code[i] <= '9' || code[i] == '_'
  }

  predicate IsInteger(x: JsNumber) {
    x.Num? && x.n == x.n.Floor as real
  }

  predicate Rejected(command: string, responseCode: JsNumber) {
    command in REJECT_COMMANDS && responseCode.Num? && 400.0 <= responseCode.n <= 599.0
  }

  predicate ConnectionFailed(command: string, code: string) {
    command == "CONN" && (code == "ECONNREFUSED" || code == "EDNS")
  }

  function SmtpFailureEvidence(errCode: string, errCommand: string, responseCode: JsNumber): (e: Evidence) {
    var command := ToUpper(errCommand);
    var code := if WellFormedCode(errCode) then errCode else "EMAIL_SEND_ERROR";
    Evidence(
      if Rejected(command, responseCode) || ConnectionFailed(command, code) then NotAccepted else Unknown,
      code,
      if command in REJECT_COMMANDS then Some(command) else None,
      if IsInteger(responseCode) && 100.0 <= responseCode.n < 600.0 then Some(responseCode.n.Floor) else None)
  }

  predicate ProtocolCommand(command: string) {
    command == "CONN" || command == "EHLO" || command == "HELO" || command == "STARTTLS" || command == "AUTH"
    || command == "MAIL FROM" || command == "RCPT TO" || command == "DATA"
  }

  /**
   * What a failure proves: a negative reply (400 to 599) to a command before the message was handed
   * over, in any case of letters, or a connection that was refused or found no host. Nothing else.
   */
  lemma EvidenceExactly(errCode: string, errCommand: string, responseCode: JsNumber)
    ensures var e, command := SmtpFailureEvidence(errCode, errCommand, responseCode), ToUpper(errCommand);
            (e.outcome == NotAccepted
             <==> (ProtocolCommand(command) && responseCode.Num? && 400.0 <= responseCode.n <= 599.0)
                  || (command == "CONN" && (errCode == "ECONNREFUSED" || errCode == "EDNS")))
            && (e.outcome != NotAccepted ==> e.outcome == Unknown)
            && e.errorCode == (if 1 <= |errCode| <= 80
                                  && (forall i :: 0 <= i < |errCode| ==>
                                        'A' <= errCode[i] <= 'Z' || '0' <= errCode[i] <= '9' || errCode[i] == '_')
                               then errCode else "EMAIL_SEND_ERROR")
            && e.command == (if ProtocolCommand(command) then Some(command) else None)
            && e.responseCode == (if responseCode.Num? && responseCode.n == responseCode.n.Floor as real
                                     && 100 <= responseCode.n.Floor <= 599
                                  then Some(responseCode.n.Floor) else None)
  {
    assert ToUpper(errCommand) in REJECT_COMMANDS <==> ProtocolCommand(ToUpper(errCommand));
    assert WellFormedCode("ECONNREFUSED") && WellFormedCode("EDNS") by { KnownCodesAreWellFormed(); }
    assert "ECONNREFUSED" != "EMAIL_SEND_ERROR" && "EDNS" != "EMAIL_SEND_ERROR";
  }

  lemma KnownCodesAreWellFormed()
    ensures WellFormedCode("ECONNREFUSED") && WellFormedCode("EDNS")
  {
    var a, b := "ECONNREFUSED", "EDNS";
    assert forall i :: 0 <= i < |a| ==> 'A' <= a[i] <= 'Z';
    assert forall i :: 0 <= i < |b| ==> 'A' <= b[i] <= 'Z';
  }

  /** What an attempt row stores of the evidence. */
  datatype StoredEvidence = StoredEvidence(
    outcome: Outcome, errorCode: Option<string>, command: Option<string>, responseCode: Option<int>)

  // `value ? String(value).slice(0, 80) : null` and `value || null`.
  function Store(e: Evidence): StoredEvidence {
    StoredEvidence(
      e.outcome,
      if e.errorCode == "" then None
      else Some(if |e.errorCode| <= 80 then e.errorCode else e.errorCode[..80]),
      if e.command == Some("") then None else e.command,
      if e.responseCode == Some(0) then None else e.responseCode)
  }

  // A null column rereads as '' or as Number(null), which is 0.
  function CanRecoverAttempt(a: StoredEvidence): (r: bool)
    ensures r ==> a.outcome == NotAccepted
  {
    a.outcome == NotAccepted
    && SmtpFailureEvidence(a.errorCode.GetOr(""), a.command.GetOr(""),
                           Num(a.responseCode.GetOr(0) as real)).outcome == NotAccepted
  }

  lemma UpperIsStable(command: string)
    requires command in REJECT_COMMANDS
    ensures ToUpper(command) == command
  {
    assert forall i :: 0 <= i < |command| ==> UpperChar(command[i]) == command[i];
  }

  lemma ProtocolWordsAreWellFormed()
    ensures WellFormedCode("EMAIL_SEND_ERROR")
    ensures "" !in REJECT_COMMANDS
  {
    var w := "EMAIL_SEND_ERROR";
    assert forall i :: 0 <= i < |w| ==> 'A' <= w[i] <= 'Z' || w[i] == '_';
  }

  /** The store drops and cuts nothing of the evidence of a failure. */
  lemma EvidenceIsStoredInFull(errCode: string, errCommand: string, responseCode: JsNumber)
    ensures var e := SmtpFailureEvidence(errCode, errCommand, responseCode);
            Store(e) == StoredEvidence(e.outcome, Some(e.errorCode), e.command, e.responseCode)
  {
    ProtocolWordsAreWellFormed();
    EvidenceExactly(errCode, errCommand, responseCode);
  }

  /** What a stored attempt must say to be retried. */
  lemma RecoverableExactly(a: StoredEvidence)
    ensures var command := ToUpper(a.command.GetOr(""));
            CanRecoverAttempt(a)
            <==> a.outcome == NotAccepted
                 && ((ProtocolCommand(command) && a.responseCode.Some? && 400 <= a.responseCode.value <= 599)
                     || (command == "CONN" && (a.errorCode == Some("ECONNREFUSED") || a.errorCode == Some("EDNS"))))
  {
    EvidenceExactly(a.errorCode.GetOr(""), a.command.GetOr(""), Num(a.responseCode.GetOr(0) as real));
    assert "" != "ECONNREFUSED" && "" != "EDNS";
  }

  /**
   * Evidence survives storage: for every failure, rereading the stored attempt says it may
   * be retried exactly when the failure proved non-acceptance, except that a fractional
   * response code loses its proof (the store keeps only integers).
   */
  lemma StoredEvidenceRereads(errCode: string, errCommand: string, responseCode: JsNumber)
    ensures var e := SmtpFailureEvidence(errCode, errCommand, responseCode);
            CanRecoverAttempt(Store(e))
            <==> e.outcome == NotAccepted
                 && (IsInteger(responseCode) || ConnectionFailed(ToUpper(errCommand), e.errorCode))
  {
    var command := ToUpper(errCommand);
    var e := SmtpFailureEvidence(errCode, errCommand, responseCode);
    var stored := Store(e);
    ProtocolWordsAreWellFormed();
    assert WellFormedCode(e.errorCode);
    assert stored.errorCode == Some(e.errorCode);
    assert "ECONNREFUSED" != "EMAIL_SEND_ERROR" && "EDNS" != "EMAIL_SEND_ERROR";
    if command in REJECT_COMMANDS {
      UpperIsStable(command);
      assert stored.command == Some(command);
      if stored.responseCode.Some? {
        assert stored.responseCode.value as real == responseCode.n;
      }
    } else {
      assert stored.command.None?;
      assert ToUpper("") == "";
    }
  }
}
