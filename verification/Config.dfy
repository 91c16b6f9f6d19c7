/**
  Configurations, their encoding as a document of sections and fields, the key
  check, and loading. The text of names, paths and addresses is judged by
  parameters; YAML bytes are not modelled.
 */
module Config {
  import opened Wrappers

  datatype General = General(logDir: string, stateDir: string, hostBased: bool)

  datatype Firewall = Firewall(backend: string, rateLimitPerSecond: int, connectionLimit: int, temporaryBanSeconds: int)

  datatype Detection = Detection(
    packetThreshold: int, connectionThreshold: int, bytesThreshold: int,
    suspiciousSpike: int, portScanThreshold: int, windowSeconds: int)

  datatype Alerts = Alerts(discordWebhook: string, slackWebhook: string, email: string)

  datatype Logging = Logging(level: string, rotate: bool)

  datatype Api = Api(enabled: bool, token: string, bindAddress: string, rateLimit: int, rateBurst: int)

  datatype Config = Config(
    general: General, firewall: Firewall, detection: Detection,
    alerts: Alerts, logging: Logging, api: Api)

  const ZERO: Config := Config(
    General("", "", false), Firewall("", 0, 0, 0), Detection(0, 0, 0, 0, 0, 0),
    Alerts("", "", ""), Logging("", false), Api(false, "", "", 0, 0))

  const DEFAULT: Config := Config(
    General("/var/log/digitdojo-shield", "/var/lib/digitdojo-shield", true),
    Firewall("auto", 200, 200, 600),
    Detection(2000, 200, 1048576, 5, 10, 30),
    Alerts("", "", ""),
    Logging("info", true),
    Api(false, "", "127.0.0.1:9090", 30, 60))

  /** The judgements on text that validation makes. */
  datatype Checks = Checks(
    path: string -> bool, backendName: string -> bool, blank: string -> bool,
    bindAddress: string -> bool, alerts: Alerts -> bool)

  predicate Valid(c: Config, checks: Checks) {
    && checks.path(c.general.logDir) && checks.path(c.general.stateDir)
    && checks.backendName(c.firewall.backend)
    && c.firewall.rateLimitPerSecond > 0 && c.firewall.connectionLimit > 0
    && c.detection.windowSeconds > 0 && c.detection.packetThreshold > 0
    && (c.api.enabled ==>
          && !checks.blank(c.api.token)
          && c.api.rateLimit > 0 && c.api.rateBurst > 0
          && c.api.bindAddress != "" && checks.bindAddress(c.api.bindAddress))
  }

  /* ----- Documents ----- */

  datatype Section = GeneralS | FirewallS | DetectionS | AlertsS | LoggingS | ApiS | OtherSection(name: string)

  datatype Field =
    | LogDir | StateDir | HostBased
    | BackendF | RateLimitPerSecond | ConnectionLimit | TemporaryBanSeconds
    | PacketThreshold | ConnectionThreshold | BytesThreshold | SuspiciousSpike | PortScanThreshold | WindowSeconds
    | DiscordWebhook | SlackWebhook | Email
    | Level | Rotate
    | Enabled | Token | BindAddress | RateLimit | RateBurst
    | OtherField(name: string)

  datatype Scalar = Str(s: string) | Int(n: int) | Bool(b: bool)

  type Fields = seq<(Field, Scalar)>

  datatype Value = Mapping(fields: Fields) | NotMapping

  type Sections = seq<(Section, Value)>

  /** What parsing a file gives: a mapping of sections, some other document, or a syntax error. */
  datatype Document = Root(sections: Sections) | NotAMapping | SyntaxError

  predicate Allowed(s: Section, f: Field) {
    match s
    case GeneralS => f.LogDir? || f.StateDir? || f.HostBased?
    case FirewallS => f.BackendF? || f.RateLimitPerSecond? || f.ConnectionLimit? || f.TemporaryBanSeconds?
    case DetectionS =>
      f.PacketThreshold? || f.ConnectionThreshold? || f.BytesThreshold? || f.SuspiciousSpike?
      || f.PortScanThreshold? || f.WindowSeconds?
    case AlertsS => f.DiscordWebhook? || f.SlackWebhook? || f.Email?
    case LoggingS => f.Level? || f.Rotate?
    case ApiS => f.Enabled? || f.Token? || f.BindAddress? || f.RateLimit? || f.RateBurst?
    case OtherSection(_) => false
  }

  predicate NoRepeats<K(==), V>(pairs: seq<(K, V)>) {
    forall i, j :: 0 <= i < j < |pairs| ==> pairs[i].0 != pairs[j].0
  }

  predicate FieldsOk(s: Section, fields: Fields) {
    NoRepeats(fields) && forall i :: 0 <= i < |fields| ==> Allowed(s, fields[i].0)
  }

  predicate SectionOk(s: Section, v: Value) {
    !s.OtherSection? && v.Mapping? && FieldsOk(s, v.fields)
  }

  /** The key check: known sections and fields only, each at most once, sections being mappings. */
  predicate KeysOk(d: Document) {
    && d.Root?
    && NoRepeats(d.sections)
    && forall i :: 0 <= i < |d.sections| ==> SectionOk(d.sections[i].0, d.sections[i].1)
  }

  method ValidateFields(s: Section, fields: Fields) returns (ok: bool)
    ensures ok <==> FieldsOk(s, fields)
  {
    var seen: set<Field> := {};
    for j := 0 to |fields|
      invariant FieldsOk(s, fields[..j])
      invariant seen == set i | 0 <= i < j :: fields[i].0
    {
      if fields[j].0 in seen || !Allowed(s, fields[j].0) {
        return false;
      }
      seen := seen + {fields[j].0};
    }
    assert fields[..|fields|] == fields;
    return true;
  }

  method ValidateYaml(d: Document) returns (ok: bool)
    ensures ok <==> KeysOk(d)
  {
    if !d.Root? {
      return false;
    }
    var seen: set<Section> := {};
    for i := 0 to |d.sections|
      invariant NoRepeats(d.sections[..i])
      invariant forall k :: 0 <= k < i ==> SectionOk(d.sections[k].0, d.sections[k].1)
      invariant seen == set k | 0 <= k < i :: d.sections[k].0
    {
      var (key, value) := d.sections[i];
      if key in seen || key.OtherSection? || !value.Mapping? {
        return false;
      }
      seen := seen + {key};
      var fine := ValidateFields(key, value.fields);
      if !fine {
        return false;
      }
    }
    assert d.sections[..|d.sections|] == d.sections;
    return true;
  }

  /* ----- Encoding and decoding ----- */

  function EncodeGeneral(g: General): Fields {
    [(LogDir, Str(g.logDir)), (StateDir, Str(g.stateDir)), (HostBased, Bool(g.hostBased))]
  }

  function EncodeFirewall(f: Firewall): Fields {
    [ (BackendF, Str(f.backend)), (RateLimitPerSecond, Int(f.rateLimitPerSecond)),
      (ConnectionLimit, Int(f.connectionLimit)), (TemporaryBanSeconds, Int(f.temporaryBanSeconds)) ]
  }

  function EncodeDetection(d: Detection): Fields {
    [ (PacketThreshold, Int(d.packetThreshold)), (ConnectionThreshold, Int(d.connectionThreshold)),
      (BytesThreshold, Int(d.bytesThreshold)), (SuspiciousSpike, Int(d.suspiciousSpike)),
      (PortScanThreshold, Int(d.portScanThreshold)), (WindowSeconds, Int(d.windowSeconds)) ]
  }

  function EncodeAlerts(a: Alerts): Fields {
    [(DiscordWebhook, Str(a.discordWebhook)), (SlackWebhook, Str(a.slackWebhook)), (Email, Str(a.email))]
  }

  function EncodeLogging(l: Logging): Fields {
    [(Level, Str(l.level)), (Rotate, Bool(l.rotate))]
  }

  function EncodeApi(a: Api): Fields {
    [ (Enabled, Bool(a.enabled)), (Token, Str(a.token)), (BindAddress, Str(a.bindAddress)),
      (RateLimit, Int(a.rateLimit)), (RateBurst, Int(a.rateBurst)) ]
  }

  function Encode(c: Config): Document {
    Root([ (GeneralS, Mapping(EncodeGeneral(c.general))), (FirewallS, Mapping(EncodeFirewall(c.firewall))),
           (DetectionS, Mapping(EncodeDetection(c.detection))), (AlertsS, Mapping(EncodeAlerts(c.alerts))),
           (LoggingS, Mapping(EncodeLogging(c.logging))), (ApiS, Mapping(EncodeApi(c.api))) ])
  }

  function Find<K(==), V>(pairs: seq<(K, V)>, key: K): Option<V> {
    if pairs == [] then None
    else if pairs[0].0 == key then Some(pairs[0].1)
    else Find(pairs[1..], key)
  }

  function StrField(fields: Fields, f: Field, base: string): Option<string> {
    var found: Option<Scalar> := Find(fields, f);
    if found.None? then Some(base) else if found.value.Str? then Some(found.value.s) else None
  }

  function IntField(fields: Fields, f: Field, base: int): Option<int> {
    var found: Option<Scalar> := Find(fields, f);
    if found.None? then Some(base) else if found.value.Int? then Some(found.value.n) else None
  }

  function BoolField(fields: Fields, f: Field, base: bool): Option<bool> {
    var found: Option<Scalar> := Find(fields, f);
    if found.None? then Some(base) else if found.value.Bool? then Some(found.value.b) else None
  }

  function DecodeGeneral(fs: Fields, base: General): Option<General> {
    var a, b := StrField(fs, LogDir, base.logDir), StrField(fs, StateDir, base.stateDir);
    var c := BoolField(fs, HostBased, base.hostBased);
    if a.Some? && b.Some? && c.Some? then Some(General(a.value, b.value, c.value)) else None
  }

  function DecodeFirewall(fs: Fields, base: Firewall): Option<Firewall> {
    var a, b := StrField(fs, BackendF, base.backend), IntField(fs, RateLimitPerSecond, base.rateLimitPerSecond);
    var c := IntField(fs, ConnectionLimit, base.connectionLimit);
    var d := IntField(fs, TemporaryBanSeconds, base.temporaryBanSeconds);
    if a.Some? && b.Some? && c.Some? && d.Some? then Some(Firewall(a.value, b.value, c.value, d.value)) else None
  }

  function DecodeDetection(fs: Fields, base: Detection): Option<Detection> {
    var a := IntField(fs, PacketThreshold, base.packetThreshold);
    var b := IntField(fs, ConnectionThreshold, base.connectionThreshold);
    var c, d := IntField(fs, BytesThreshold, base.bytesThreshold), IntField(fs, SuspiciousSpike, base.suspiciousSpike);
    var e, f := IntField(fs, PortScanThreshold, base.portScanThreshold), IntField(fs, WindowSeconds, base.windowSeconds);
    if a.Some? && b.Some? && c.Some? && d.Some? && e.Some? && f.Some?
    then Some(Detection(a.value, b.value, c.value, d.value, e.value, f.value)) else None
  }

  function DecodeAlerts(fs: Fields, base: Alerts): Option<Alerts> {
    var a, b := StrField(fs, DiscordWebhook, base.discordWebhook), StrField(fs, SlackWebhook, base.slackWebhook);
    var c := StrField(fs, Email, base.email);
    if a.Some? && b.Some? && c.Some? then Some(Alerts(a.value, b.value, c.value)) else None
  }

  function DecodeLogging(fs: Fields, base: Logging): Option<Logging> {
    var a, b := StrField(fs, Level, base.level), BoolField(fs, Rotate, base.rotate);
    if a.Some? && b.Some? then Some(Logging(a.value, b.value)) else None
  }

  function DecodeApi(fs: Fields, base: Api): Option<Api> {
    var a, b := BoolField(fs, Enabled, base.enabled), StrField(fs, Token, base.token);
    var c := StrField(fs, BindAddress, base.bindAddress);
    var d, e := IntField(fs, RateLimit, base.rateLimit), IntField(fs, RateBurst, base.rateBurst);
    if a.Some? && b.Some? && c.Some? && d.Some? && e.Some?
    then Some(Api(a.value, b.value, c.value, d.value, e.value)) else None
  }

  /** The fields of a section; an absent section has none, and a non-mapping cannot be decoded. */
  function SectionFields(d: Document, s: Section): Option<Fields>
    requires d.Root?
  {
    var found: Option<Value> := Find(d.sections, s);
    if found.None? then Some([]) else if found.value.Mapping? then Some(found.value.fields) else None
  }

  /** The decoder refuses repeated keys anywhere. */
  predicate Decodable(d: Document) {
    && d.Root?
    && NoRepeats(d.sections)
    && forall i :: 0 <= i < |d.sections| && d.sections[i].1.Mapping? ==> NoRepeats(d.sections[i].1.fields)
  }

  /** Decoding a document over a base configuration: absent fields keep the base's values. */
  function Decode(d: Document, base: Config): Option<Config> {
    if !Decodable(d) then None
    else
      var gs, fs, ds := SectionFields(d, GeneralS), SectionFields(d, FirewallS), SectionFields(d, DetectionS);
      var als, ls, aps := SectionFields(d, AlertsS), SectionFields(d, LoggingS), SectionFields(d, ApiS);
      if gs.None? || fs.None? || ds.None? || als.None? || ls.None? || aps.None? then None
      else
        var g, f := DecodeGeneral(gs.value, base.general), DecodeFirewall(fs.value, base.firewall);
        var e, a := DecodeDetection(ds.value, base.detection), DecodeAlerts(als.value, base.alerts);
        var l, p := DecodeLogging(ls.value, base.logging), DecodeApi(aps.value, base.api);
        if g.None? || f.None? || e.None? || a.None? || l.None? || p.None? then None
        else Some(Config(g.value, f.value, e.value, a.value, l.value, p.value))
  }

  function Checked(c: Option<Config>, checks: Checks): Option<Config> {
    if c.Some? && Valid(c.value, checks) then c else None
  }

  /** `LoadFromFile`: key check, decoding over the defaults, validation. */
  function LoadFile(d: Document, checks: Checks): Option<Config> {
    if !KeysOk(d) then None else Checked(Decode(d, DEFAULT), checks)
  }

  /** `loadBytes`: decoding over the zero value, validation. */
  function LoadBytes(d: Document, checks: Checks): Option<Config> {
    Checked(Decode(d, ZERO), checks)
  }

  method LoadFromFile(d: Document, checks: Checks) returns (r: Option<Config>)
    ensures r == LoadFile(d, checks)
  {
    var ok := ValidateYaml(d);
    if !ok {
      return None;
    }
    var cfg := Decode(d, DEFAULT);
    if cfg.None? || !Valid(cfg.value, checks) {
      return None;
    }
    return cfg;
  }

  /* ----- Loading inverts encoding ----- */

  lemma {:induction false} FindAt<K, V>(pairs: seq<(K, V)>, i: nat)
    requires i < |pairs| && NoRepeats(pairs)
    ensures Find(pairs, pairs[i].0) == Some(pairs[i].1)
  {
    if i > 0 {
      FindAt(pairs[1..], i - 1);
    }
  }

  lemma FindAll<K, V>(pairs: seq<(K, V)>)
    requires NoRepeats(pairs)
    ensures forall i :: 0 <= i < |pairs| ==> Find(pairs, pairs[i].0) == Some(pairs[i].1)
  {
    forall i | 0 <= i < |pairs| ensures Find(pairs, pairs[i].0) == Some(pairs[i].1) {
      FindAt(pairs, i);
    }
  }

  lemma GeneralRoundTrip(g: General, base: General)
    ensures DecodeGeneral(EncodeGeneral(g), base) == Some(g)
  {
    FindAll(EncodeGeneral(g));
    var fs := EncodeGeneral(g);
    assert fs[0] == (LogDir, Str(g.logDir)) && fs[1] == (StateDir, Str(g.stateDir)) && fs[2] == (HostBased, Bool(g.hostBased));
  }

  lemma FirewallRoundTrip(f: Firewall, base: Firewall)
    ensures DecodeFirewall(EncodeFirewall(f), base) == Some(f)
  {
    var fs := EncodeFirewall(f);
    FindAll(fs);
    assert fs[0].0 == BackendF && fs[1].0 == RateLimitPerSecond && fs[2].0 == ConnectionLimit && fs[3].0 == TemporaryBanSeconds;
  }

  lemma DetectionRoundTrip(d: Detection, base: Detection)
    ensures DecodeDetection(EncodeDetection(d), base) == Some(d)
  {
    var fs := EncodeDetection(d);
    FindAll(fs);
    assert fs[0].0 == PacketThreshold && fs[1].0 == ConnectionThreshold && fs[2].0 == BytesThreshold;
    assert fs[3].0 == SuspiciousSpike && fs[4].0 == PortScanThreshold && fs[5].0 == WindowSeconds;
  }

  lemma AlertsRoundTrip(a: Alerts, base: Alerts)
    ensures DecodeAlerts(EncodeAlerts(a), base) == Some(a)
  {
    var fs := EncodeAlerts(a);
    FindAll(fs);
    assert fs[0].0 == DiscordWebhook && fs[1].0 == SlackWebhook && fs[2].0 == Email;
  }

  lemma LoggingRoundTrip(l: Logging, base: Logging)
    ensures DecodeLogging(EncodeLogging(l), base) == Some(l)
  {
    var fs := EncodeLogging(l);
    FindAll(fs);
    assert fs[0].0 == Level && fs[1].0 == Rotate;
  }

  lemma ApiRoundTrip(a: Api, base: Api)
    ensures DecodeApi(EncodeApi(a), base) == Some(a)
  {
    var fs := EncodeApi(a);
    FindAll(fs);
    assert fs[0].0 == Enabled && fs[1].0 == Token && fs[2].0 == BindAddress && fs[3].0 == RateLimit && fs[4].0 == RateBurst;
  }

  lemma EncodedFieldsOk(c: Config)
    ensures FieldsOk(GeneralS, EncodeGeneral(c.general)) && FieldsOk(FirewallS, EncodeFirewall(c.firewall))
    ensures FieldsOk(DetectionS, EncodeDetection(c.detection)) && FieldsOk(AlertsS, EncodeAlerts(c.alerts))
    ensures FieldsOk(LoggingS, EncodeLogging(c.logging)) && FieldsOk(ApiS, EncodeApi(c.api))
  {
  }

  lemma SixSections(fs: seq<Fields>)
    requires |fs| == 6
    requires FieldsOk(GeneralS, fs[0]) && FieldsOk(FirewallS, fs[1]) && FieldsOk(DetectionS, fs[2])
    requires FieldsOk(AlertsS, fs[3]) && FieldsOk(LoggingS, fs[4]) && FieldsOk(ApiS, fs[5])
    ensures var d := Root([ (GeneralS, Mapping(fs[0])), (FirewallS, Mapping(fs[1])), (DetectionS, Mapping(fs[2])),
                            (AlertsS, Mapping(fs[3])), (LoggingS, Mapping(fs[4])), (ApiS, Mapping(fs[5])) ]);
            KeysOk(d) && Decodable(d)
  {
  }

  lemma EncodedKeysOk(c: Config)
    ensures KeysOk(Encode(c)) && Decodable(Encode(c))
  {
    EncodedFieldsOk(c);
    SixSections([ EncodeGeneral(c.general), EncodeFirewall(c.firewall), EncodeDetection(c.detection),
                  EncodeAlerts(c.alerts), EncodeLogging(c.logging), EncodeApi(c.api) ]);
  }

  /** Decoding an encoded configuration gives it back over any base. */
  lemma DecodeInvertsEncode(c: Config, base: Config)
    ensures Decode(Encode(c), base) == Some(c)
  {
    EncodedKeysOk(c);
    var ss := Encode(c).sections;
    FindAll(ss);
    assert ss[0].0 == GeneralS && ss[1].0 == FirewallS && ss[2].0 == DetectionS;
    assert ss[3].0 == AlertsS && ss[4].0 == LoggingS && ss[5].0 == ApiS;
    GeneralRoundTrip(c.general, base.general);
    FirewallRoundTrip(c.firewall, base.firewall);
    DetectionRoundTrip(c.detection, base.detection);
    AlertsRoundTrip(c.alerts, base.alerts);
    LoggingRoundTrip(c.logging, base.logging);
    ApiRoundTrip(c.api, base.api);
  }

  /** Encoded configurations pass the key check, and both ways of loading invert encoding. */
  lemma LoadInvertsEncode(c: Config, checks: Checks)
    ensures KeysOk(Encode(c))
    ensures LoadFile(Encode(c), checks) == LoadBytes(Encode(c), checks) == if Valid(c, checks) then Some(c) else None
  {
    EncodedKeysOk(c);
    DecodeInvertsEncode(c, DEFAULT);
    DecodeInvertsEncode(c, ZERO);
  }

  lemma EncodeInjective(c: Config, d: Config)
    ensures Encode(c) == Encode(d) <==> c == d
  {
    DecodeInvertsEncode(c, ZERO);
    DecodeInvertsEncode(d, ZERO);
  }

  /* ----- When the two ways of loading agree ----- */

  predicate Has(fs: Fields, f: Field) {
    Find<Field, Scalar>(fs, f).Some?
  }

  /** The fields of a section whose default is not the zero value. */
  function NonzeroDefaults(s: Section): set<Field> {
    match s
    case GeneralS => {LogDir, StateDir, HostBased}
    case FirewallS => {BackendF, RateLimitPerSecond, ConnectionLimit, TemporaryBanSeconds}
    case DetectionS => {PacketThreshold, ConnectionThreshold, BytesThreshold, SuspiciousSpike, PortScanThreshold, WindowSeconds}
    case AlertsS => {}
    case LoggingS => {Level, Rotate}
    case ApiS => {BindAddress, RateLimit, RateBurst}
    case OtherSection(_) => {}
  }

  predicate SectionComplete(fs: Fields, s: Section) {
    forall f :: f in NonzeroDefaults(s) ==> Has(fs, f)
  }

  /** Every field with a nonzero default is written out. */
  predicate Complete(d: Document)
    requires d.Root?
  {
    forall s :: s in {GeneralS, FirewallS, DetectionS, AlertsS, LoggingS, ApiS} ==>
                  SectionFields(d, s).Some? && SectionComplete(SectionFields(d, s).value, s)
  }

  /** A decoded section does not depend on the base if and only if it is complete. */
  lemma GeneralBase(fs: Fields)
    requires DecodeGeneral(fs, ZERO.general).Some?
    ensures DecodeGeneral(fs, DEFAULT.general) == DecodeGeneral(fs, ZERO.general) <==> SectionComplete(fs, GeneralS)
  {
    assert SectionComplete(fs, GeneralS) <==> Has(fs, LogDir) && Has(fs, StateDir) && Has(fs, HostBased);
  }

  lemma FirewallBase(fs: Fields)
    requires DecodeFirewall(fs, ZERO.firewall).Some?
    ensures DecodeFirewall(fs, DEFAULT.firewall) == DecodeFirewall(fs, ZERO.firewall) <==> SectionComplete(fs, FirewallS)
  {
    assert SectionComplete(fs, FirewallS) <==>
           Has(fs, BackendF) && Has(fs, RateLimitPerSecond) && Has(fs, ConnectionLimit) && Has(fs, TemporaryBanSeconds);
  }

  lemma DetectionBase(fs: Fields)
    requires DecodeDetection(fs, ZERO.detection).Some?
    ensures DecodeDetection(fs, DEFAULT.detection) == DecodeDetection(fs, ZERO.detection) <==> SectionComplete(fs, DetectionS)
  {
    assert SectionComplete(fs, DetectionS) <==>
           && Has(fs, PacketThreshold) && Has(fs, ConnectionThreshold) && Has(fs, BytesThreshold)
           && Has(fs, SuspiciousSpike) && Has(fs, PortScanThreshold) && Has(fs, WindowSeconds);
  }

  lemma LoggingBase(fs: Fields)
    requires DecodeLogging(fs, ZERO.logging).Some?
    ensures DecodeLogging(fs, DEFAULT.logging) == DecodeLogging(fs, ZERO.logging) <==> SectionComplete(fs, LoggingS)
  {
    assert SectionComplete(fs, LoggingS) <==> Has(fs, Level) && Has(fs, Rotate);
  }

  lemma ApiBase(fs: Fields)
    requires DecodeApi(fs, ZERO.api).Some?
    ensures DecodeApi(fs, DEFAULT.api) == DecodeApi(fs, ZERO.api) <==> SectionComplete(fs, ApiS)
  {
    assert SectionComplete(fs, ApiS) <==> Has(fs, BindAddress) && Has(fs, RateLimit) && Has(fs, RateBurst);
  }

  /** Decoding over the defaults gives what decoding over zero gives exactly for complete documents. */
  lemma DecodeBase(d: Document)
    requires Decode(d, ZERO).Some?
    ensures Decode(d, DEFAULT) == Decode(d, ZERO) <==> Complete(d)
  {
    GeneralBase(SectionFields(d, GeneralS).value);
    FirewallBase(SectionFields(d, FirewallS).value);
    DetectionBase(SectionFields(d, DetectionS).value);
    LoggingBase(SectionFields(d, LoggingS).value);
    ApiBase(SectionFields(d, ApiS).value);
    assert SectionComplete(SectionFields(d, AlertsS).value, AlertsS);
    SixComplete(d);
  }

  lemma SixComplete(d: Document)
    requires Decode(d, ZERO).Some?
    ensures Complete(d) <==>
            && SectionComplete(SectionFields(d, GeneralS).value, GeneralS)
            && SectionComplete(SectionFields(d, FirewallS).value, FirewallS)
            && SectionComplete(SectionFields(d, DetectionS).value, DetectionS)
            && SectionComplete(SectionFields(d, AlertsS).value, AlertsS)
            && SectionComplete(SectionFields(d, LoggingS).value, LoggingS)
            && SectionComplete(SectionFields(d, ApiS).value, ApiS)
  {
    assert Complete(d) ==> GeneralS in {GeneralS, FirewallS, DetectionS, AlertsS, LoggingS, ApiS};
  }

  /**
    What `loadBytes` accepts, `LoadFromFile` reads as the same configuration if
    and only if all keys are known and every field with a nonzero default is there.
   */
  lemma LoadersAgreeIff(d: Document, checks: Checks)
    requires LoadBytes(d, checks).Some?
    ensures LoadFile(d, checks) == LoadBytes(d, checks) <==> KeysOk(d) && Complete(d)
  {
    DecodeBase(d);
  }

  lemma {:induction false} FindAppended<K, V>(pairs: seq<(K, V)>, other: (K, V), key: K)
    requires other.0 != key
    ensures Find(pairs + [other], key) == Find(pairs, key)
  {
    if pairs != [] {
      FindAppended(pairs[1..], other, key);
      assert (pairs + [other])[1..] == pairs[1..] + [other];
    }
  }

  lemma DecodableAppended(ss: Sections, name: string, v: Value)
    requires Decodable(Root(ss)) && (v.Mapping? ==> NoRepeats(v.fields))
    requires forall i :: 0 <= i < |ss| ==> ss[i].0 != OtherSection(name)
    ensures Decodable(Root(ss + [(OtherSection(name), v)])) && !KeysOk(Root(ss + [(OtherSection(name), v)]))
  {
    var d := Root(ss + [(OtherSection(name), v)]);
    assert d.sections[|ss|] == (OtherSection(name), v);
    assert !SectionOk(d.sections[|ss|].0, d.sections[|ss|].1);
  }

  /** Decoding looks at the known sections only. */
  lemma DecodeAppended(ss: Sections, name: string, v: Value, base: Config)
    requires Decodable(Root(ss)) && Decodable(Root(ss + [(OtherSection(name), v)]))
    ensures Decode(Root(ss + [(OtherSection(name), v)]), base) == Decode(Root(ss), base)
  {
    forall s: Section | !s.OtherSection?
      ensures SectionFields(Root(ss + [(OtherSection(name), v)]), s) == SectionFields(Root(ss), s)
    {
      FindAppended(ss, (OtherSection(name), v), s);
    }
  }

  /** An encoding with an unknown section appended: `loadBytes` does not mind it, `LoadFromFile` refuses it. */
  lemma UnknownSection(c: Config, name: string, v: Value, checks: Checks)
    requires Valid(c, checks) && (v.Mapping? ==> NoRepeats(v.fields))
    ensures var d := Root(Encode(c).sections + [(OtherSection(name), v)]);
            LoadBytes(d, checks) == Some(c) && LoadFile(d, checks) == None
  {
    var ss := Encode(c).sections;
    EncodedKeysOk(c);
    assert forall i :: 0 <= i < |ss| ==> SectionOk(ss[i].0, ss[i].1);
    DecodableAppended(ss, name, v);
    DecodeAppended(ss, name, v, ZERO);
    DecodeInvertsEncode(c, ZERO);
  }

  /* ----- Which keys stand for what ----- */

  /** The scalar a document has under a section and a field. */
  function At(d: Document, s: Section, f: Field): Option<Scalar>
    requires d.Root?
  {
    if SectionFields(d, s).None? then None else Find<Field, Scalar>(SectionFields(d, s).value, f)
  }

  lemma SectionsOf(c: Config)
    ensures SectionFields(Encode(c), GeneralS) == Some(EncodeGeneral(c.general))
    ensures SectionFields(Encode(c), FirewallS) == Some(EncodeFirewall(c.firewall))
    ensures SectionFields(Encode(c), DetectionS) == Some(EncodeDetection(c.detection))
    ensures SectionFields(Encode(c), AlertsS) == Some(EncodeAlerts(c.alerts))
    ensures SectionFields(Encode(c), LoggingS) == Some(EncodeLogging(c.logging))
    ensures SectionFields(Encode(c), ApiS) == Some(EncodeApi(c.api))
  {
    EncodedKeysOk(c);
    var ss := Encode(c).sections;
    FindAll(ss);
    assert ss[0].0 == GeneralS && ss[1].0 == FirewallS && ss[2].0 == DetectionS;
    assert ss[3].0 == AlertsS && ss[4].0 == LoggingS && ss[5].0 == ApiS;
  }

  /** Every part of a configuration is written under its own key. */
  lemma GeneralWrittenUnder(c: Config)
    ensures At(Encode(c), GeneralS, LogDir) == Some(Str(c.general.logDir))
    ensures At(Encode(c), GeneralS, StateDir) == Some(Str(c.general.stateDir))
    ensures At(Encode(c), GeneralS, HostBased) == Some(Bool(c.general.hostBased))
  {
    SectionsOf(c);
    var fs := EncodeGeneral(c.general);
    FindAll(fs);
    assert fs[0].0 == LogDir && fs[1].0 == StateDir && fs[2].0 == HostBased;
  }

  lemma AlertsWrittenUnder(c: Config)
    ensures At(Encode(c), AlertsS, DiscordWebhook) == Some(Str(c.alerts.discordWebhook))
    ensures At(Encode(c), AlertsS, SlackWebhook) == Some(Str(c.alerts.slackWebhook))
    ensures At(Encode(c), AlertsS, Email) == Some(Str(c.alerts.email))
  {
    SectionsOf(c);
    var fs := EncodeAlerts(c.alerts);
    FindAll(fs);
    assert fs[0].0 == DiscordWebhook && fs[1].0 == SlackWebhook && fs[2].0 == Email;
  }

  lemma LoggingWrittenUnder(c: Config)
    ensures At(Encode(c), LoggingS, Level) == Some(Str(c.logging.level))
    ensures At(Encode(c), LoggingS, Rotate) == Some(Bool(c.logging.rotate))
  {
    SectionsOf(c);
    var fs := EncodeLogging(c.logging);
    FindAll(fs);
    assert fs[0].0 == Level && fs[1].0 == Rotate;
  }

  lemma FirewallWrittenUnder(c: Config)
    ensures At(Encode(c), FirewallS, BackendF) == Some(Str(c.firewall.backend))
    ensures At(Encode(c), FirewallS, RateLimitPerSecond) == Some(Int(c.firewall.rateLimitPerSecond))
    ensures At(Encode(c), FirewallS, ConnectionLimit) == Some(Int(c.firewall.connectionLimit))
    ensures At(Encode(c), FirewallS, TemporaryBanSeconds) == Some(Int(c.firewall.temporaryBanSeconds))
  {
    SectionsOf(c);
    var fs := EncodeFirewall(c.firewall);
    FindAll(fs);
    assert fs[0].0 == BackendF && fs[1].0 == RateLimitPerSecond;
    assert fs[2].0 == ConnectionLimit && fs[3].0 == TemporaryBanSeconds;
  }

  lemma DetectionWrittenUnder(c: Config)
    ensures At(Encode(c), DetectionS, PacketThreshold) == Some(Int(c.detection.packetThreshold))
    ensures At(Encode(c), DetectionS, ConnectionThreshold) == Some(Int(c.detection.connectionThreshold))
    ensures At(Encode(c), DetectionS, BytesThreshold) == Some(Int(c.detection.bytesThreshold))
    ensures At(Encode(c), DetectionS, SuspiciousSpike) == Some(Int(c.detection.suspiciousSpike))
    ensures At(Encode(c), DetectionS, PortScanThreshold) == Some(Int(c.detection.portScanThreshold))
    ensures At(Encode(c), DetectionS, WindowSeconds) == Some(Int(c.detection.windowSeconds))
  {
    SectionsOf(c);
    var fs := EncodeDetection(c.detection);
    FindAll(fs);
    assert fs[0].0 == PacketThreshold && fs[1].0 == ConnectionThreshold && fs[2].0 == BytesThreshold;
    assert fs[3].0 == SuspiciousSpike && fs[4].0 == PortScanThreshold && fs[5].0 == WindowSeconds;
  }

  lemma ApiWrittenUnder(c: Config)
    ensures At(Encode(c), ApiS, Enabled) == Some(Bool(c.api.enabled))
    ensures At(Encode(c), ApiS, Token) == Some(Str(c.api.token))
    ensures At(Encode(c), ApiS, BindAddress) == Some(Str(c.api.bindAddress))
    ensures At(Encode(c), ApiS, RateLimit) == Some(Int(c.api.rateLimit))
    ensures At(Encode(c), ApiS, RateBurst) == Some(Int(c.api.rateBurst))
  {
    SectionsOf(c);
    var fs := EncodeApi(c.api);
    FindAll(fs);
    assert fs[0].0 == Enabled && fs[1].0 == Token && fs[2].0 == BindAddress && fs[3].0 == RateLimit && fs[4].0 == RateBurst;
  }

  lemma {:induction false} FindSomeIff<K, V>(pairs: seq<(K, V)>, key: K)
    ensures Find(pairs, key).Some? <==> exists i :: 0 <= i < |pairs| && pairs[i].0 == key
  {
    if pairs != [] {
      FindSomeIff(pairs[1..], key);
      if i :| 0 <= i < |pairs| && pairs[i].0 == key && i > 0 {
        assert pairs[1..][i - 1].0 == key;
      }
    }
  }

  /** The key check allows exactly the section and field pairs that encodings write. */
  lemma AllowedIff(s: Section, f: Field, c: Config)
    ensures Allowed(s, f) <==> At(Encode(c), s, f).Some?
  {
    if Allowed(s, f) {
      AllowedWritten(s, f, c);
    } else if s.OtherSection? {
      FindSomeIff(Encode(c).sections, s);
    } else {
      SectionsOf(c);
      var fs := SectionFields(Encode(c), s).value;
      FindSomeIff(fs, f);
      AllFieldsAllowed(c, s, fs);
    }
  }

  lemma AllowedWritten(s: Section, f: Field, c: Config)
    requires Allowed(s, f)
    ensures At(Encode(c), s, f).Some?
  {
    match s {
      case GeneralS => GeneralWrittenUnder(c);
      case FirewallS => FirewallWrittenUnder(c);
      case DetectionS => DetectionWrittenUnder(c);
      case AlertsS => AlertsWrittenUnder(c);
      case LoggingS => LoggingWrittenUnder(c);
      case ApiS => ApiWrittenUnder(c);
    }
  }

  lemma AllFieldsAllowed(c: Config, s: Section, fs: Fields)
    requires SectionFields(Encode(c), s) == Some(fs) && !s.OtherSection?
    ensures forall i :: 0 <= i < |fs| ==> Allowed(s, fs[i].0)
  {
    SectionsOf(c);
    EncodedFieldsOk(c);
  }
}
