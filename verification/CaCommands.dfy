/** Certification-authority commands: publication URLs, templates, settings. */
module CaCommands {
  import opened Prelude
  import opened Text
  import opened Lists
  import opened Report
  import opened Authz
  import opened PowerShell
  import opened Registry

  // ---------- publication entries ----------

  const FORBIDDEN := "\"'`;$\n\r"

  /** A scheme the publication list may name, or a UNC path. */
  predicate SchemeAnchored(location: string) {
    || "ldap:///" <= location || "http://" <= location || "https://" <= location
    || "file://" <= location || "\\\\" <= location
  }

  /** A drive letter, judged on bytes as the code does: byte 1 and byte 2 first,
      then the first character. */
  predicate DriveAnchoredBytes(location: string) {
    var bytes := Utf8(location);
    && |bytes| > 3 && bytes[1] == ':' as int && bytes[2] == '\\' as int
    && location != [] && IsAsciiAlpha(location[0])
  }

  /** The same judged on characters. */
  predicate DriveAnchored(location: string) {
    |location| > 3 && location[1] == ':' && location[2] == '\\' && IsAsciiAlpha(location[0])
  }

  predicate ValidLocation(location: string) {
    && location != [] && ByteLen(location) <= 300
    && (SchemeAnchored(location) || DriveAnchoredBytes(location))
    && !exists c :: c in location && c in FORBIDDEN
  }

  function FirstColon(s: string): (i: nat)
    ensures i <= |s| && ':' !in s[..i] && (i < |s| ==> s[i] == ':')
  {
    if s == [] || s[0] == ':' then 0
    else
      var i := FirstColon(s[1..]) + 1;
      assert s[..i] == [s[0]] + s[1..][..i - 1];
      i
  }

  predicate ValidPublicationEntry(entry: string) {
    var i := FirstColon(entry);
    && i < |entry|
    && i > 0 && AllDigits(entry[..i]) && DigitsValue(entry[..i]) <= 1023
    && ValidLocation(entry[i + 1..])
  }

  /** An entry is digits for a number up to 1023, a colon, and a location. */
  lemma EntryExactly(entry: string)
    ensures ValidPublicationEntry(entry) <==>
      exists flags, location :: Entry(entry, flags, location)
  {
    if ValidPublicationEntry(entry) {
      var i := FirstColon(entry);
      assert entry == entry[..i] + ":" + entry[i + 1..];
      assert Entry(entry, entry[..i], entry[i + 1..]);
    }
    if flags, location :| Entry(entry, flags, location) {
      ColonAfterDigits(flags, location);
      assert entry[..|flags|] == flags && entry[|flags| + 1..] == location;
    }
  }

  ghost predicate Entry(entry: string, flags: string, location: string) {
    && entry == flags + ":" + location
    && flags != "" && AllDigits(flags) && DigitsValue(flags) <= 1023
    && ValidLocation(location)
  }

  lemma ColonAfterDigits(flags: string, location: string)
    requires AllDigits(flags)
    ensures FirstColon(flags + ":" + location) == |flags|
  {
    forall j | 0 <= j < |flags| ensures (flags + ":" + location)[j] != ':' {
      assert flags[j] in flags;
    }
    FirstColonIs(flags + ":" + location, |flags|);
  }

  lemma {:induction false} FirstColonIs(s: string, k: nat)
    requires k < |s| && s[k] == ':' && forall j :: 0 <= j < k ==> s[j] != ':'
    ensures FirstColon(s) == k
  {
    if k > 0 {
      assert s[0] != ':';
      FirstColonIs(s[1..], k - 1);
    }
  }

  /** A location has up to 300 bytes, begins with a scheme, a share or a drive, and
      has nothing in it that a shell would take apart. */
  lemma LocationExactly(location: string)
    ensures ValidLocation(location) <==>
      && location != "" && ByteLen(location) <= 300
      && (|| "ldap:///" <= location || "http://" <= location || "https://" <= location || "file://" <= location
          || "\\\\" <= location
          || (|location| > 3 && location[1] == ':' && location[2] == '\\' && IsAsciiAlpha(location[0])))
      && forall c :: c in location ==> c !in {'"', '\'', '`', ';', '$', '\n', '\r'}
  {
    ByteTestIsCharTest(location);
    ForbiddenSet();
  }

  lemma ForbiddenSet()
    ensures forall c :: c in FORBIDDEN <==> c in {'"', '\'', '`', ';', '$', '\n', '\r'}
  {
  }

  lemma Utf8Step(s: string)
    requires s != []
    ensures Utf8(s) == Utf8Char(s[0]) + Utf8(s[1..])
  {
  }

  /** A byte below 0x80 at offset 1 or 2 after ASCII text is a character. */
  lemma LeadingAscii(s: string, c: char)
    requires s != [] && IsAscii(s[0])
    ensures Utf8(s)[1..] == Utf8(s[1..])
    ensures IsAscii(c) && |Utf8(s)| > 1 && Utf8(s)[1] == c as int ==> |s| > 1 && s[1] == c
    ensures |s| > 1 && IsAscii(s[1]) ==> Utf8(s)[1] == s[1] as int
  {
    Utf8Step(s);
    if |s| > 1 {
      Utf8Step(s[1..]);
      if !IsAscii(s[1]) {
        assert Utf8Char(s[1])[0] in Utf8Char(s[1]);
      }
    }
  }

  /** The byte test never reads past the end or into a character: on every text
      it agrees with the test on characters. */
  lemma ByteTestIsCharTest(location: string)
    ensures DriveAnchoredBytes(location) <==> DriveAnchored(location)
  {
    if location != [] && IsAsciiAlpha(location[0]) {
      LeadingAscii(location, ':');
      if |location| > 1 && location[1] == ':' {
        LeadingAscii(location[1..], '\\');
        assert |Utf8(location)| > 2 ==> Utf8(location)[2] == Utf8(location)[1..][1];
        if |location| > 2 && location[2] == '\\' {
          Utf8Step(location[2..]);
          Utf8Step(location[1..]);
          Utf8Step(location);
          assert |Utf8(location)| == 3 + |Utf8(location[3..])| by {
            assert location[2..][1..] == location[3..] && location[1..][1..] == location[2..];
          }
          assert location[3..] == [] ==> Utf8(location[3..]) == [];
        }
      }
    }
  }

  // ---------- ca.configure_cdp_aia ----------

  /** certutil's own entry separator: a backslash and an n. */
  const LITERAL_N := "\\n"

  predicate AllValid(entries: seq<string>) {
    forall e :: e in entries ==> ValidPublicationEntry(e)
  }

  /** The first entry that is not a publication URL. */
  function FirstBad(entries: seq<string>): (bad: Option<string>)
    ensures bad.None? <==> AllValid(entries)
    ensures bad.Some? ==> bad.value in entries && !ValidPublicationEntry(bad.value)
  {
    if entries == [] then None
    else if !ValidPublicationEntry(entries[0]) then Some(entries[0])
    else
      var bad := FirstBad(entries[1..]);
      assert entries == [entries[0]] + entries[1..];
      bad
  }

  function BadEntry(name: string, bad: string): CommandError {
    InvalidParam(name, "entry '" + bad + "' is not a flag-prefixed publication URL")
  }

  function PrepareCdpAia(params: Params): Result<Job, CommandError> {
    var aia := ParseList(ParamOr(params, "aiaUrls", ""), '\n');
    var cdp := ParseList(ParamOr(params, "cdpUrls", ""), '\n');
    if aia == [] && cdp == [] then Err(MissingParam("aiaUrls or cdpUrls"))
    else
      match FirstBad(aia)
      case Some(bad) => Err(BadEntry("aiaUrls", bad))
      case None =>
        match FirstBad(cdp)
        case Some(bad) => Err(BadEntry("cdpUrls", bad))
        case None => Ok(Job("configuring CDP/AIA", 40.0, [Join(aia, LITERAL_N), Join(cdp, LITERAL_N)]))
  }

  function FinishCdpAia(params: Params, output: Output): Result<Value, CommandError> {
    Ok(Obj(map["aia_urls" := TextList(ParseList(ParamOr(params, "aiaUrls", ""), '\n')),
               "cdp_urls" := TextList(ParseList(ParamOr(params, "cdpUrls", ""), '\n'))]))
  }

  function CaConfigureCdpAia(): Handler {
    Staged("ca.configure_cdp_aia", VmProvision, PrepareCdpAia, FinishCdpAia)
  }

  /** The array after the script: an empty argument leaves the old one alone,
      another one is split by certutil and replaces it. */
  function Stored(was: seq<string>, argument: string): seq<string> {
    if argument == [] then was else Split(argument, LITERAL_N)
  }

  lemma JoinEmpty(entries: seq<string>, sep: string)
    requires sep != [] && forall e :: e in entries ==> e != []
    ensures Join(entries, sep) == [] <==> entries == []
  {
    if entries != [] { assert entries[0] in entries; }
  }

  /** A list is stored as asked for exactly when no entry contains a backslash
      followed by n and, if the list is empty, the array was empty already. */
  ghost predicate StoredAsAsked(was: seq<string>, entries: seq<string>) {
    Free(entries, LITERAL_N) && (entries == [] ==> was == [])
  }

  /** An entry that merely ends in a backslash is safe; one that contains a
      backslash and an n is torn, and the array gets longer than the list. */
  lemma PublicationRoundTrip(raw: string, was: seq<string>)
    ensures var entries := ParseList(raw, '\n');
            && (Stored(was, Join(entries, LITERAL_N)) == entries <==> StoredAsAsked(was, entries))
            && (!Free(entries, LITERAL_N) ==> |Stored(was, Join(entries, LITERAL_N))| > |entries|)
  {
    var entries := ParseList(raw, '\n');
    ParsedIsClean(raw, '\n');
    JoinEmpty(entries, LITERAL_N);
    if entries != [] {
      SplitJoin(entries, LITERAL_N);
    }
  }

  /** Validation does not rule the bad case out: any file name under a directory
      whose name starts with n, such as C:\new, is accepted and does not survive. */
  lemma AcceptedEntryIsTorn(tail: string)
    requires AllAscii(tail) && |tail| <= 296 && forall c :: c in tail ==> c !in FORBIDDEN
    ensures var entry := "1:C:\\n" + tail;
            && ValidPublicationEntry(entry)
            && forall was :: Stored(was, Join([entry], LITERAL_N)) != [entry]
  {
    var entry := "1:C:\\n" + tail;
    var location := "C:\\n" + tail;
    NewDirectoryIsValid(tail);
    FlaggedEntry(entry, location);
    assert LITERAL_N <= entry[4..];
    assert Contains(entry, LITERAL_N);
    assert entry in [entry];
    SplitJoin([entry], LITERAL_N);
  }

  lemma NewDirectoryIsValid(tail: string)
    requires AllAscii(tail) && |tail| <= 296 && forall c :: c in tail ==> c !in FORBIDDEN
    ensures ValidLocation("C:\\n" + tail)
  {
    var location := "C:\\n" + tail;
    assert AllAscii(location);
    AsciiBytes(location);
    ByteTestIsCharTest(location);
    assert location[1] == ':' && location[2] == '\\' && location[3] == 'n';
  }

  lemma FlaggedEntry(entry: string, location: string)
    requires entry == "1:" + location && ValidLocation(location)
    ensures ValidPublicationEntry(entry)
  {
    assert entry[0] == '1' && entry[1] == ':' && entry[..1] == "1";
    assert entry[1..][0] == ':' && FirstColon(entry) == 1;
    assert entry[2..] == location;
    assert "1"[..0] == "" && DigitsValue("1") == 1;
  }

  /** The two lists of a request. */
  function AiaEntries(params: Params): seq<string> { ParseList(ParamOr(params, "aiaUrls", ""), '\n') }

  function CdpEntries(params: Params): seq<string> { ParseList(ParamOr(params, "cdpUrls", ""), '\n') }

  /** The result says what both lists are, and nothing else. */
  ghost predicate ReportsLists(result: Value, aia: seq<string>, cdp: seq<string>) {
    ReportsTexts(result, "aia_urls", aia) && ReportsTexts(result, "cdp_urls", cdp)
  }

  /** Accepted exactly when some entry is given and all are publication URLs; then
      the two arguments are the joined lists. */
  lemma PreparedCdpAia(params: Params)
    ensures var aia, cdp := AiaEntries(params), CdpEntries(params);
            && (PrepareCdpAia(params).Ok? <==> !(aia == [] && cdp == []) && AllValid(aia) && AllValid(cdp))
            && (PrepareCdpAia(params).Ok? ==>
                  PrepareCdpAia(params).value.args == [Join(aia, LITERAL_N), Join(cdp, LITERAL_N)])
  {
  }

  lemma FinishedCdpAia(params: Params, output: Output)
    ensures FinishCdpAia(params, output).Ok?
    ensures ReportsLists(FinishCdpAia(params, output).value, AiaEntries(params), CdpEntries(params))
  {
    assert "aia_urls"[0] != "cdp_urls"[0];
    ReportsTwo("aia_urls", AiaEntries(params), "cdp_urls", CdpEntries(params));
  }

  /** The handler end to end: a refused request does nothing; an accepted one runs
      the script once, and if it succeeds both lists are reported as given. Each
      array is then the reported list exactly when it is stored as asked. */
  lemma CdpAiaRun(params: Params, reply: Reply, oldAia: seq<string>, oldCdp: seq<string>)
    ensures var ex := CaConfigureCdpAia().run(params, reply);
            var aia, cdp := AiaEntries(params), CdpEntries(params);
            && (PrepareCdpAia(params).Err? ==> ex == Execution([], [], Err(PrepareCdpAia(params).error)))
            && (PrepareCdpAia(params).Ok? ==>
                  && |ex.calls| == 1 && |ex.calls[0].args| == 2
                  && ListOf(aia, ParamOr(params, "aiaUrls", ""), '\n')
                  && ListOf(cdp, ParamOr(params, "cdpUrls", ""), '\n')
                  && (Stored(oldAia, ex.calls[0].args[0]) == aia <==> StoredAsAsked(oldAia, aia))
                  && (Stored(oldCdp, ex.calls[0].args[1]) == cdp <==> StoredAsAsked(oldCdp, cdp))
                  && (ex.outcome.Ok? <==> reply.Ok? && reply.value.exitCode == 0)
                  && (ex.outcome.Ok? ==> ReportsLists(ex.outcome.value, aia, cdp)))
  {
    StagedCases("ca.configure_cdp_aia", VmProvision, PrepareCdpAia, FinishCdpAia, params, reply);
    PreparedCdpAia(params);
    ParsedList(ParamOr(params, "aiaUrls", ""), '\n');
    ParsedList(ParamOr(params, "cdpUrls", ""), '\n');
    PublicationRoundTrip(ParamOr(params, "aiaUrls", ""), oldAia);
    PublicationRoundTrip(ParamOr(params, "cdpUrls", ""), oldCdp);
    if reply.Ok? && reply.value.exitCode == 0 { FinishedCdpAia(params, reply.value); }
  }

  lemma NoEntries()
    ensures ParseList("", '\n') == []
  {
    assert Split("", "\n") == [""] && [""][1..] == [];
    assert Trim("") == "";
  }

  /** A request for one list leaves the other array as it was and reports it empty. */
  lemma OmittedListKeepsOld(raw: string, output: Output, oldAia: seq<string>)
    requires output.Succeeded()
    requires ParseList(raw, '\n') != [] && AllValid(ParseList(raw, '\n'))
    ensures var ex := CaConfigureCdpAia().run(map["cdpUrls" := raw], Ok(output));
            && ex.outcome.Ok? && ReportsLists(ex.outcome.value, [], ParseList(raw, '\n'))
            && |ex.calls| == 1 && |ex.calls[0].args| == 2
            && Stored(oldAia, ex.calls[0].args[0]) == oldAia
  {
    var params := map["cdpUrls" := raw];
    NoEntries();
    assert "aiaUrls" !in params by { assert "aiaUrls"[0] != "cdpUrls"[0]; }
    assert AiaEntries(params) == [] && CdpEntries(params) == ParseList(raw, '\n');
    StagedCases("ca.configure_cdp_aia", VmProvision, PrepareCdpAia, FinishCdpAia, params, Ok(output));
    PreparedCdpAia(params);
    FinishedCdpAia(params, output);
  }

  // ---------- ca.publish_template ----------

  predicate ValidTemplateName(t: string) {
    1 <= ByteLen(t) <= 64 && forall c :: c in t ==> IsAsciiAlnum(c) || c in "._-"
  }

  function PrepareTemplates(params: Params): Result<Job, CommandError> {
    match Param(params, "templates")
    case None => Err(MissingParam("templates"))
    case Some(raw) =>
      var templates := ParseList(raw, ',');
      if templates == [] || exists t :: t in templates && !ValidTemplateName(t) then
        Err(InvalidParam("templates", "must be a comma-separated list of template CN names"))
      else Ok(Job("publishing templates", 30.0, [Join(templates, ",")]))
  }

  function FinishTemplates(params: Params, output: Output): Result<Value, CommandError> {
    Ok(Obj(map["templates" := TextList(ParseList(ParamOr(params, "templates", ""), ',')),
               "on_ca" := Str(Trim(output.stdout))]))
  }

  function CaPublishTemplate(): Handler {
    Staged("ca.publish_template", VmProvision, PrepareTemplates, FinishTemplates)
  }

  /** The templates the script publishes: split again, each trimmed again. */
  function PublishedTemplates(argument: string): seq<string> {
    var pieces := Split(argument, ",");
    seq(|pieces|, i requires 0 <= i < |pieces| => Trim(pieces[i]))
  }

  /** Accepted exactly when some name is given and all have 1 to 64 letters, digits,
      dots, underscores and hyphens. */
  lemma TemplatesAccepted(params: Params)
    ensures PrepareTemplates(params).Ok? <==>
      && "templates" in params && ParseList(params["templates"], ',') != []
      && forall t :: t in ParseList(params["templates"], ',') ==> PlainTemplate(t)
  {
    if "templates" in params { AllTemplates(ParseList(params["templates"], ',')); }
  }

  predicate PlainTemplate(t: string) {
    1 <= |t| <= 64 && forall c :: c in t ==> IsAsciiAlnum(c) || c in "._-"
  }

  lemma AllTemplates(templates: seq<string>)
    ensures (exists t :: t in templates && !ValidTemplateName(t)) <==> exists t :: t in templates && !PlainTemplate(t)
  {
    forall t ensures ValidTemplateName(t) <==> PlainTemplate(t) { TemplateBytes(t); }
  }

  lemma TemplateBytes(t: string)
    ensures ValidTemplateName(t) <==> PlainTemplate(t)
  {
    if forall c :: c in t ==> IsAsciiAlnum(c) || c in "._-" {
      forall c | c in t ensures IsAscii(c) { assert IsAsciiAlnum(c) || c in "._-"; }
      AsciiBytes(t);
    }
  }

  /** The handler end to end: what the script publishes is what is reported, the
      validated names. */
  lemma TemplatesRun(params: Params, reply: Reply)
    requires PrepareTemplates(params).Ok?
    ensures var ex := CaPublishTemplate().run(params, reply);
            var templates := ParseList(params["templates"], ',');
            && ListOf(templates, params["templates"], ',')
            && |ex.calls| == 1 && |ex.calls[0].args| == 1
            && PublishedTemplates(ex.calls[0].args[0]) == templates
            && (forall t :: t in templates ==> ValidTemplateName(t))
            && (ex.outcome.Ok? <==> reply.Ok? && reply.value.exitCode == 0)
            && (ex.outcome.Ok? ==> ReportsTexts(ex.outcome.value, "templates", templates))
  {
    StagedCases("ca.publish_template", VmProvision, PrepareTemplates, FinishTemplates, params, reply);
    TemplatesRoundTrip(params);
    ParsedList(params["templates"], ',');
    if reply.Ok? && reply.value.exitCode == 0 { FinishedTemplates(params, reply.value); }
  }

  lemma FinishedTemplates(params: Params, output: Output)
    ensures var outcome := FinishTemplates(params, output);
            && outcome.Ok? && ReportsTexts(outcome.value, "templates", ParseList(ParamOr(params, "templates", ""), ','))
            && outcome.value.fields == map[
                 "templates" := outcome.value.fields["templates"], "on_ca" := Str(Trim(output.stdout))]
  {
    var texts := TextList(ParseList(ParamOr(params, "templates", ""), ','));
    assert |"templates"| != |"on_ca"|;
    TwoFields("templates", texts, "on_ca", Str(Trim(output.stdout)));
  }

  /** For every accepted input the script publishes exactly the validated names. */
  lemma TemplatesRoundTrip(params: Params)
    requires PrepareTemplates(params).Ok?
    ensures PublishedTemplates(PrepareTemplates(params).value.args[0]) == ParseList(params["templates"], ',')
  {
    PublishedAsParsed(params["templates"]);
  }

  lemma PublishedAsParsed(raw: string)
    requires ParseList(raw, ',') != []
    ensures PublishedTemplates(Join(ParseList(raw, ','), ",")) == ParseList(raw, ',')
  {
    ListRoundTrip(raw, ',');
    ParsedIsClean(raw, ',');
    TrimmedStay(ParseList(raw, ','), ',');
  }

  lemma TrimmedStay(entries: seq<string>, sep: char)
    requires forall e :: e in entries ==> Clean(e, sep)
    ensures forall i :: 0 <= i < |entries| ==> Trim(entries[i]) == entries[i]
  {
    forall i | 0 <= i < |entries| ensures Trim(entries[i]) == entries[i] {
      assert entries[i] in entries;
      TrimFixed(entries[i]);
    }
  }
}
