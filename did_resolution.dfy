/**
 * Locating the account's Personal Data Server (PDS): the URL of the DID
 * document for a `did:plc:` or `did:web:` identifier, and the first usable
 * `#atproto_pds` service entry of that document.
 */
module DidResolution {
  import opened Wrappers
  import opened Text

  const PlcPrefix := "did:plc:"
  const WebPrefix := "did:web:"
  const PlcDirectory := "https://plc.directory/"
  const Https := "https://"
  const WellKnownPath := "/.well-known/did.json"
  const PdsIdSuffix := "#atproto_pds"
  const PdsServiceType := "AtprotoPersonalDataServer"

  /**
   * Where the DID document of `did` lives: the PLC directory for `did:plc:`,
   * the host's well-known path for `did:web:` (every ':' of the method-specific
   * part becomes '/'), and nowhere for any other method.
   */
  function DidDocumentUrl(did: string): (url: Option<string>)
    ensures url.Some? <==> StartsWith(did, PlcPrefix) || StartsWith(did, WebPrefix)
    ensures url.Some? ==> StartsWith(url.value, Https)
    ensures url.Some? && StartsWith(did, WebPrefix) ==>
              forall k :: |Https| <= k < |url.value| ==> url.value[k] != ':'
  {
    if StartsWith(did, PlcPrefix) then
      Some(PlcDirectory + did)
    else if StartsWith(did, WebPrefix) then
      WebUrlHasNoColon(did[|WebPrefix|..]);
      Some(Https + ReplaceChar(did[|WebPrefix|..], ':', '/') + WellKnownPath)
    else
      None
  }

  /**
   * The identifier a document URL was built from: the inverse of
   * DidDocumentUrl (a `did:web:` URL holds no ':' after its scheme, a PLC
   * URL always does).
   */
  function DidOfDocumentUrl(url: string): (did: Option<string>)
  {
    if StartsWith(url, PlcDirectory) && StartsWith(url[|PlcDirectory|..], PlcPrefix) then
      Some(url[|PlcDirectory|..])
    else if StartsWith(url, Https) && EndsWith(url, WellKnownPath) && |Https| + |WellKnownPath| <= |url| then
      Some(WebPrefix + ReplaceChar(url[|Https|..|url| - |WellKnownPath|], '/', ':'))
    else
      None
  }

  /** Replacing ':' by '/' and back is the identity on text without '/'. */
  lemma ReplaceBack(s: string)
    requires forall i :: 0 <= i < |s| ==> s[i] != '/'
    ensures ReplaceChar(ReplaceChar(s, ':', '/'), '/', ':') == s
  {
  }

  /** After its scheme, a did:web document URL contains no ':'. */
  lemma WebUrlHasNoColon(rest: string)
    ensures var url := Https + ReplaceChar(rest, ':', '/') + WellKnownPath;
      forall k :: |Https| <= k < |url| ==> url[k] != ':'
  {
    var host := ReplaceChar(rest, ':', '/');
    var url := Https + host + WellKnownPath;
    assert ':' !in WellKnownPath;
    forall k | |Https| <= k < |url| ensures url[k] != ':' {
      if k < |Https| + |host| {
        assert url[k] == host[k - |Https|];
      } else {
        assert url[k] == WellKnownPath[k - |Https| - |host|];
      }
    }
  }

  /**
   * The document URL determines the identifier: a PLC identifier always, a
   * web identifier whenever its method-specific part holds no '/' (which the
   * did:web method never produces, as it writes path separators as ':').
   */
  lemma DocumentUrlRoundTrip(did: string)
    requires StartsWith(did, PlcPrefix)
          || (StartsWith(did, WebPrefix) && forall i :: |WebPrefix| <= i < |did| ==> did[i] != '/')
    ensures DidDocumentUrl(did).Some? && DidOfDocumentUrl(DidDocumentUrl(did).value) == Some(did)
  {
    var url := DidDocumentUrl(did).value;
    if StartsWith(did, PlcPrefix) {
      assert url[|PlcDirectory|..] == did;
    } else {
      var rest := did[|WebPrefix|..];
      var host := ReplaceChar(rest, ':', '/');
      assert url == Https + host + WellKnownPath;
      // a did:web URL holds no ':' after its scheme, so it is not read back as a PLC URL
      WebUrlHasNoColon(rest);
      var p := |PlcDirectory| + 3;
      assert p < |url| ==> url[p] != ':';
      assert !StartsWith(url[|PlcDirectory|..], PlcPrefix);
      assert url[|Https|..|url| - |WellKnownPath|] == host;
      ReplaceBack(rest);
      assert did == WebPrefix + rest;
    }
  }

  /**
   * A JSON member of a service entry as the code inspects it: missing, a
   * string, or some other JSON value. No non-string JSON value prints (under
   * Python's `str`) as text ending in "#atproto_pds", so only strings can match.
   */
  datatype Field = Absent | Str(s: string) | NonString

  datatype Service = Service(id: Field, kind: Field, endpoint: Field)

  /**
   * A parsed DID document, reduced to its `service` and `services` arrays;
   * a missing, null or empty array is the empty sequence.
   */
  datatype DidDocument = DidDocument(service: seq<Service>, services: seq<Service>)

  /** `did_doc.get("service") or did_doc.get("services") or []` */
  function ServiceEntries(doc: DidDocument): (entries: seq<Service>)
    ensures doc.service != [] ==> entries == doc.service
    ensures doc.service == [] ==> entries == doc.services
  {
    if doc.service != [] then doc.service else doc.services
  }

  /**
   * The entry announces a PDS, by its id or by its type. The type alone
   * suffices; an entry whose id and type are both missing or not strings
   * never does.
   */
  predicate IsPdsEntry(svc: Service)
    ensures svc.kind == Str(PdsServiceType) ==> IsPdsEntry(svc)
    ensures !svc.id.Str? && !svc.kind.Str? ==> !IsPdsEntry(svc)
  {
    (svc.id.Str? && EndsWith(svc.id.s, PdsIdSuffix)) || svc.kind == Str(PdsServiceType)
  }

  /** An id made of any text followed by "#atproto_pds" announces a PDS, whatever the type. */
  lemma PdsFragmentId(prefix: string, kind: Field, endpoint: Field)
    ensures IsPdsEntry(Service(Str(prefix + PdsIdSuffix), kind, endpoint))
  {
    var id := prefix + PdsIdSuffix;
    assert id[|id| - |PdsIdSuffix|..] == PdsIdSuffix;
  }

  predicate HasUsableEndpoint(svc: Service) {
    svc.endpoint.Str? && svc.endpoint.s != ""
  }

  /**
   * A PDS entry with a usable endpoint. A missing endpoint, one that is not a
   * string, or the empty string disqualifies the entry.
   */
  predicate Qualifies(svc: Service)
    ensures !svc.endpoint.Str? ==> !Qualifies(svc)
    ensures svc.endpoint == Str("") ==> !Qualifies(svc)
    ensures svc.endpoint.Str? && svc.endpoint.s != "" ==> (Qualifies(svc) <==> IsPdsEntry(svc))
  {
    IsPdsEntry(svc) && HasUsableEndpoint(svc)
  }

  predicate IsSlash(c: char) { c == '/' }

  /** The index of the first qualifying entry, or the number of entries when none qualifies. */
  function FirstQualifying(entries: seq<Service>): (k: nat)
    ensures k <= |entries|
    ensures forall j :: 0 <= j < k ==> !Qualifies(entries[j])
    ensures k < |entries| ==> Qualifies(entries[k])
  {
    if entries == [] || Qualifies(entries[0]) then 0
    else 1 + FirstQualifying(entries[1..])
  }

  /**
   * The endpoint of the first qualifying entry, trailing slashes removed;
   * None when no entry qualifies.
   */
  function FirstPdsEndpoint(entries: seq<Service>): (r: Option<string>)
    ensures r.None? <==> forall i :: 0 <= i < |entries| ==> !Qualifies(entries[i])
    ensures r.Some? ==>
              exists i :: 0 <= i < |entries| && Qualifies(entries[i])
                && (forall j :: 0 <= j < i ==> !Qualifies(entries[j]))
                && r.value == TrimRight(entries[i].endpoint.s, IsSlash)
  {
    var k := FirstQualifying(entries);
    if k == |entries| then None
    else
      assert Qualifies(entries[k]);
      Some(TrimRight(entries[k].endpoint.s, IsSlash))
  }

  /**
   * `get_pds_endpoint_from_did_doc`: None for a missing (or empty) document,
   * otherwise the first qualifying entry's endpoint, never ending in '/'.
   */
  function PdsEndpointFromDidDoc(doc: Option<DidDocument>): (r: Option<string>)
    ensures doc.None? ==> r.None?
    ensures r.Some? ==> !EndsWith(r.value, "/")
    ensures doc.Some? ==> var entries := ServiceEntries(doc.value);
      && (r.None? <==> forall i :: 0 <= i < |entries| ==> !Qualifies(entries[i]))
      && (r.Some? ==>
            exists i :: 0 <= i < |entries| && Qualifies(entries[i])
              && (forall j :: 0 <= j < i ==> !Qualifies(entries[j]))
              && r.value == TrimRight(entries[i].endpoint.s, IsSlash))
  {
    match doc
    case None => None
    case Some(d) =>
      var r := FirstPdsEndpoint(ServiceEntries(d));
      assert r.Some? ==> !EndsWith(r.value, "/") by {
        if r.Some? && r.value != [] {
          assert r.value[|r.value| - 1..] == [r.value[|r.value| - 1]];
        }
      }
      r
  }

  /** An entry naming a PDS but without a non-empty string endpoint is passed over. */
  lemma {:induction false} UnusableEntrySkipped(entries: seq<Service>)
    requires entries != [] && IsPdsEntry(entries[0]) && !HasUsableEndpoint(entries[0])
    ensures FirstPdsEndpoint(entries) == FirstPdsEndpoint(entries[1..])
  {
    assert FirstQualifying(entries) == 1 + FirstQualifying(entries[1..]);
    if FirstQualifying(entries) < |entries| {
      assert entries[FirstQualifying(entries)] == entries[1..][FirstQualifying(entries[1..])];
    }
  }

  /** An endpoint made of slashes only is returned as the empty string. */
  lemma AllSlashEndpoint(entries: seq<Service>, i: nat)
    requires i < |entries| && Qualifies(entries[i])
    requires forall j :: 0 <= j < i ==> !Qualifies(entries[j])
    requires forall k :: 0 <= k < |entries[i].endpoint.s| ==> entries[i].endpoint.s[k] == '/'
    ensures FirstPdsEndpoint(entries) == Some("")
  {
    var r := FirstPdsEndpoint(entries);
    var i' :| 0 <= i' < |entries| && Qualifies(entries[i'])
              && (forall j :: 0 <= j < i' ==> !Qualifies(entries[j]))
              && r.value == TrimRight(entries[i'].endpoint.s, IsSlash);
    assert i' == i;
  }

  /**
   * The PDS the exporter talks to (lines 176-192): fetch the DID document
   * through `http` when the identifier has a document URL (None stands for a
   * failed request), then read its PDS entry.
   */
  function DiscoverPdsEndpoint(did: string, http: string -> Option<DidDocument>): (r: Option<string>)
    ensures DidDocumentUrl(did).None? ==> r.None?
    ensures DidDocumentUrl(did).Some? ==> r == PdsEndpointFromDidDoc(http(DidDocumentUrl(did).value))
    ensures r.Some? ==> !EndsWith(r.value, "/")
  {
    match DidDocumentUrl(did)
    case None => None
    case Some(url) => PdsEndpointFromDidDoc(http(url))
  }
}
