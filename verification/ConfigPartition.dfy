/**
 Splitting the runtime configuration over four files, and merging it again
 (foundation/runtime_config_store.py).
 */
module ConfigPartition {
  import opened Json

  // ---- Which fields are private ----

  function Lower(s: string): string {
    seq(|s|, i requires 0 <= i < |s| => if 'A' <= s[i] <= 'Z' then s[i] - 'A' + 'a' else s[i])
  }

  predicate EndsWith(s: string, suffix: string) {
    |suffix| <= |s| && s[|s| - |suffix|..] == suffix
  }

  predicate EndsWithAny(s: string, suffixes: set<string>) {
    exists suffix :: suffix in suffixes && EndsWith(s, suffix)
  }

  const SECRET_NAMES := {"password", "passwd", "token", "secret", "api_key", "authorization", "ubuntu_pswd"}
  const SECRET_SUFFIXES := {"_password", "_passwd", "_pswd", "_token", "_secret", "_api_key",
                            "_password_encrypted", "_api_key_encrypted"}

  function BareName(lowered: string): string {
    if EndsWith(lowered, "_static_config") then lowered[..|lowered| - |"_static_config"|] else lowered
  }

  predicate IsSecretField(key: string) {
    var name := BareName(Lower(key));
    !EndsWithAny(name, {"_file", "_path", "_env"}) && (name in SECRET_NAMES || EndsWithAny(name, SECRET_SUFFIXES))
  }

  /** `s` is some text followed by `end`. */
  ghost predicate EndsIn(s: string, end: string) {
    exists front: string :: s == front + end
  }

  lemma EndsWithMeans(s: string, end: string)
    ensures EndsWith(s, end) <==> EndsIn(s, end)
  {
    if EndsWith(s, end) {
      assert s == s[..|s| - |end|] + end;
    }
  }

  /**
   Which names are secret: the name in lower case, without a final
   `_static_config`, is one of seven names or ends like a password, token,
   secret or key, and does not end like a file, path or variable.
   */
  lemma SecretFieldMeaning(key: string) returns (name: string)
    ensures Lower(key) == name + "_static_config" || (Lower(key) == name && !EndsIn(name, "_static_config"))
    ensures IsSecretField(key) <==>
      && !EndsIn(name, "_file") && !EndsIn(name, "_path") && !EndsIn(name, "_env")
      && (|| name == "password" || name == "passwd" || name == "token" || name == "secret" || name == "api_key"
          || name == "authorization" || name == "ubuntu_pswd"
          || EndsIn(name, "_password") || EndsIn(name, "_passwd") || EndsIn(name, "_pswd") || EndsIn(name, "_token")
          || EndsIn(name, "_secret") || EndsIn(name, "_api_key")
          || EndsIn(name, "_password_encrypted") || EndsIn(name, "_api_key_encrypted"))
  {
    hide EndsWith, EndsIn, EndsWithAny, BareName, Lower;
    name := BareName(Lower(key));
    BareNameMeans(Lower(key));
    NotSecretEnds(name);
    SecretEnds(name);
  }

  lemma BareNameMeans(lowered: string)
    ensures var name := BareName(lowered);
      lowered == name + "_static_config" || (lowered == name && !EndsIn(name, "_static_config"))
  {
    EndsWithMeans(lowered, "_static_config");
    hide EndsIn;
  }

  lemma NotSecretEnds(name: string)
    ensures EndsWithAny(name, {"_file", "_path", "_env"}) <==>
      EndsIn(name, "_file") || EndsIn(name, "_path") || EndsIn(name, "_env")
  {
    hide EndsWith, EndsIn;
    EndsWithMeans(name, "_file");
    EndsWithMeans(name, "_path");
    EndsWithMeans(name, "_env");
  }

  lemma SecretEnds(name: string)
    ensures EndsWithAny(name, SECRET_SUFFIXES) <==>
      || EndsIn(name, "_password") || EndsIn(name, "_passwd") || EndsIn(name, "_pswd") || EndsIn(name, "_token")
      || EndsIn(name, "_secret") || EndsIn(name, "_api_key")
      || EndsIn(name, "_password_encrypted") || EndsIn(name, "_api_key_encrypted")
  {
    hide EndsWith, EndsIn;
    EndsWithMeans(name, "_password");
    EndsWithMeans(name, "_passwd");
    EndsWithMeans(name, "_pswd");
    EndsWithMeans(name, "_token");
    EndsWithMeans(name, "_secret");
    EndsWithMeans(name, "_api_key");
    EndsWithMeans(name, "_password_encrypted");
    EndsWithMeans(name, "_api_key_encrypted");
  }

  const DEPLOYMENT_KEYS := {
    "ubuntu_user", "ubuntu_host", "local_server", "use_key_auth", "private_key_path",
    "suites_path", "script_path", "gsi_scripts", "scrcpy_path", "install_host_ip",
    "install_port", "static_routes", "firmware_shares", "ssh_port", "ubuntu_port"}
  const DEVICE_STATE_KEYS := {
    "usbip_devices_source", "usbip_cluster_assignments", "adb_proxy_assignments",
    "usbip_network_quality_history", "usbip_source_os"}
  const CREDENTIAL_KEYS := {"client_ssh_credentials", "redmine_auth"}

  predicate IsPrivateKey(key: string) {
    key in CREDENTIAL_KEYS || IsSecretField(key)
  }

  /** `_contains_secret`: recursion through objects and arrays. */
  predicate ContainsSecret(j: Json) {
    match j
    case Object(fields) => exists k :: k in fields && (IsPrivateKey(k) || ContainsSecret(fields[k]))
    case Array(items) => exists i :: 0 <= i < |items| && ContainsSecret(items[i])
    case _ => false
  }

  /** The recursion finds exactly the values in which a private key occurs somewhere. */
  lemma {:induction false} ContainsSecretMeaning(j: Json)
    ensures ContainsSecret(j) <==> exists k :: k in AllKeys(j) && IsPrivateKey(k)
  {
    match j
    case Object(fields) =>
      forall k | k in fields
        ensures ContainsSecret(fields[k]) <==> exists s :: s in AllKeys(fields[k]) && IsPrivateKey(s)
      {
        ContainsSecretMeaning(fields[k]);
      }
    case Array(items) =>
      forall i | 0 <= i < |items|
        ensures ContainsSecret(items[i]) <==> exists s :: s in AllKeys(items[i]) && IsPrivateKey(s)
      {
        ContainsSecretMeaning(items[i]);
      }
    case _ =>
  }

  // ---- What extraction and overlay compute ----

  /** Fields that are moved to the credentials file as a whole. */
  predicate MovesWhole(key: string, value: Json) {
    IsPrivateKey(key) || (value.Array? && ContainsSecret(value))
  }

  function PublicPart(value: JsonObject): JsonObject {
    Object(map k | k in value.fields && !MovesWhole(k, value.fields[k]) ::
      if value.fields[k].Object? then PublicPart(value.fields[k]) else value.fields[k])
  }

  function PrivatePart(value: JsonObject): JsonObject {
    Object(map k | k in value.fields
        && (MovesWhole(k, value.fields[k])
            || (value.fields[k].Object? && PrivatePart(value.fields[k]) != EMPTY)) ::
      if MovesWhole(k, value.fields[k]) then value.fields[k] else PrivatePart(value.fields[k]))
  }

  function Overlay(base: JsonObject, extra: JsonObject): JsonObject
    decreases extra
  {
    Object(map k | k in base.fields.Keys + extra.fields.Keys ::
      if k !in extra.fields then base.fields[k]
      else if extra.fields[k].Object? && k in base.fields && base.fields[k].Object?
      then Overlay(base.fields[k], extra.fields[k])
      else extra.fields[k])
  }

  datatype Section = Preferences | Deployment | Devices | Credentials

  /** The order in which the store lists its four files. */
  const SECTIONS: seq<Section> := [Preferences, Deployment, Devices, Credentials]

  /** One object for each of the four files. */
  datatype Parts = Parts(preferences: JsonObject, deployment: JsonObject, devices: JsonObject,
                           credentials: JsonObject) {
    function At(section: Section): JsonObject {
      match section
      case Preferences => preferences
      case Deployment => deployment
      case Devices => devices
      case Credentials => credentials
    }

    function With(section: Section, value: JsonObject): Parts {
      match section
      case Preferences => this.(preferences := value)
      case Deployment => this.(deployment := value)
      case Devices => this.(devices := value)
      case Credentials => this.(credentials := value)
    }
  }

  function SectionOf(key: string): Section {
    if key in DEPLOYMENT_KEYS then Deployment
    else if key in DEVICE_STATE_KEYS then Devices
    else Preferences
  }

  function OrdinarySection(ordinary: JsonObject, section: Section): JsonObject {
    Object(map k | k in ordinary.fields && SectionOf(k) == section :: ordinary.fields[k])
  }

  function Partition(payload: JsonObject): Parts {
    var ordinary := PublicPart(payload);
    Parts(OrdinarySection(ordinary, Preferences), OrdinarySection(ordinary, Deployment),
          OrdinarySection(ordinary, Devices), PrivatePart(payload))
  }

  /** What a reader combines out of four files, in the store's order. */
  function Combine(parts: Parts): JsonObject {
    Overlay(Overlay(Overlay(Overlay(EMPTY, parts.preferences), parts.deployment), parts.devices), parts.credentials)
  }

  // ---- The loops of the source ----

  /** The fields of `m` that a loop has dealt with while `todo` is still to come. */
  ghost function Done(m: map<string, Json>, todo: set<string>): map<string, Json> {
    map k | k in m && k !in todo :: m[k]
  }

  lemma DoneBounds(m: map<string, Json>, keys: set<string>)
    requires m.Keys <= keys
    ensures Done(m, keys) == map[] && Done(m, {}) == m
  {
  }

  lemma DoneStep(m: map<string, Json>, todo: set<string>, key: string)
    requires key in todo
    ensures Done(m, todo - {key}) == if key in m then Done(m, todo)[key := m[key]] else Done(m, todo)
  {
  }

  method ExtractSecrets(value: JsonObject) returns (public: JsonObject, private: JsonObject)
    ensures public == PublicPart(value)
    ensures private == PrivatePart(value)
    decreases value
  {
    hide IsSecretField, IsPrivateKey, ContainsSecret;
    ghost var whole, part := PublicPart(value).fields, PrivatePart(value).fields;
    public, private := EMPTY, EMPTY;
    var todo := value.fields.Keys;
    DoneBounds(whole, todo);
    DoneBounds(part, todo);
    while todo != {}
      invariant todo <= value.fields.Keys
      invariant public.fields == Done(whole, todo) && private.fields == Done(part, todo)
      decreases |todo|
    {
      var key :| key in todo;
      var item := value.fields[key];
      DoneStep(whole, todo, key);
      DoneStep(part, todo, key);
      if IsPrivateKey(key) {
        private := Object(private.fields[key := item]);
      } else if item.Array? && ContainsSecret(item) {
        private := Object(private.fields[key := item]);
      } else if item.Object? {
        var ordinary, secrets := ExtractSecrets(item);
        public := Object(public.fields[key := ordinary]);
        if secrets != EMPTY {
          private := Object(private.fields[key := secrets]);
        }
      } else {
        public := Object(public.fields[key := item]);
      }
      todo := todo - {key};
    }
  }

  lemma OverlayOneMore(base: JsonObject, extra: JsonObject, key: string, value: Json)
    requires key !in extra.fields
    ensures Overlay(base, Object(extra.fields[key := value])).fields
         == Overlay(base, extra).fields[key :=
              if value.Object? && key in base.fields && base.fields[key].Object? then Overlay(base.fields[key], value)
              else value]
  {
  }

  method OverlaySections(base: JsonObject, extra: JsonObject) returns (result: JsonObject)
    ensures result == Overlay(base, extra)
    decreases extra
  {
    result := base;
    var todo := extra.fields.Keys;
    DoneBounds(extra.fields, todo);
    OverlayNothing(base);
    while todo != {}
      invariant todo <= extra.fields.Keys
      invariant result == Overlay(base, Object(Done(extra.fields, todo)))
      decreases |todo|
    {
      var key :| key in todo;
      var value := extra.fields[key];
      DoneStep(extra.fields, todo, key);
      OverlayOneMore(base, Object(Done(extra.fields, todo)), key, value);
      if value.Object? && key in result.fields && result.fields[key].Object? {
        var merged := OverlaySections(result.fields[key], value);
        result := Object(result.fields[key := merged]);
      } else {
        result := Object(result.fields[key := value]);
      }
      todo := todo - {key};
    }
  }

  /** The file a loop has filled so far for one ordinary section. */
  ghost function SectionSoFar(ordinary: JsonObject, section: Section, todo: set<string>): JsonObject {
    OrdinarySection(Object(Done(ordinary.fields, todo)), section)
  }

  lemma SectionStep(ordinary: JsonObject, section: Section, todo: set<string>, key: string)
    requires key in todo && key in ordinary.fields
    ensures SectionSoFar(ordinary, section, todo - {key}).fields
         == if SectionOf(key) == section then SectionSoFar(ordinary, section, todo).fields[key := ordinary.fields[key]]
            else SectionSoFar(ordinary, section, todo).fields
  {
    DoneStep(ordinary.fields, todo, key);
  }

  ghost function PartsSoFar(ordinary: JsonObject, credentials: JsonObject, todo: set<string>): Parts {
    Parts(SectionSoFar(ordinary, Preferences, todo), SectionSoFar(ordinary, Deployment, todo),
          SectionSoFar(ordinary, Devices, todo), credentials)
  }

  lemma PartsStep(ordinary: JsonObject, credentials: JsonObject, todo: set<string>, key: string, section: Section)
    requires key in todo && key in ordinary.fields && section == SectionOf(key)
    ensures section != Credentials
    ensures PartsSoFar(ordinary, credentials, todo - {key})
         == PartsSoFar(ordinary, credentials, todo).With(section,
              Object(SectionSoFar(ordinary, section, todo).fields[key := ordinary.fields[key]]))
  {
    SectionStep(ordinary, Preferences, todo, key);
    SectionStep(ordinary, Deployment, todo, key);
    SectionStep(ordinary, Devices, todo, key);
  }

  lemma PartsBounds(payload: JsonObject)
    ensures var ordinary := PublicPart(payload);
      && PartsSoFar(ordinary, PrivatePart(payload), ordinary.fields.Keys)
         == Parts(EMPTY, EMPTY, EMPTY, PrivatePart(payload))
      && PartsSoFar(ordinary, PrivatePart(payload), {}) == Partition(payload)
  {
    var ordinary := PublicPart(payload);
    DoneBounds(ordinary.fields, ordinary.fields.Keys);
    forall s
      ensures OrdinarySection(Object(map[]), s) == EMPTY
    {
      assert OrdinarySection(Object(map[]), s).fields == map[];
    }
  }

  method PartitionRuntime(payload: JsonObject) returns (parts: Parts)
    ensures parts == Partition(payload)
  {
    hide PublicPart, PrivatePart, Partition, SectionOf;
    var ordinary, credentials := ExtractSecrets(payload);
    parts := Parts(EMPTY, EMPTY, EMPTY, credentials);
    var todo := ordinary.fields.Keys;
    PartsBounds(payload);
    while todo != {}
      invariant todo <= ordinary.fields.Keys
      invariant parts == PartsSoFar(ordinary, credentials, todo)
      decreases |todo|
    {
      var key :| key in todo;
      var section := SectionOf(key);
      PartsStep(ordinary, credentials, todo, key, section);
      parts := parts.With(section, Object(parts.At(section).fields[key := ordinary.fields[key]]));
      todo := todo - {key};
    }
  }

  // ---- Where a field goes ----

  predicate IsDeploymentName(key: string) {
    || key == "ubuntu_user" || key == "ubuntu_host" || key == "local_server" || key == "use_key_auth"
    || key == "private_key_path" || key == "suites_path" || key == "script_path" || key == "gsi_scripts"
    || key == "scrcpy_path" || key == "install_host_ip" || key == "install_port" || key == "static_routes"
    || key == "firmware_shares" || key == "ssh_port" || key == "ubuntu_port"
  }

  predicate IsDeviceStateName(key: string) {
    || key == "usbip_devices_source" || key == "usbip_cluster_assignments" || key == "adb_proxy_assignments"
    || key == "usbip_network_quality_history" || key == "usbip_source_os"
  }

  /** A field that belongs to the credentials as a whole: by its own name, or an array with a private key inside. */
  ghost predicate IsWhollyPrivate(key: string, value: Json) {
    IsPrivateName(key) || (value.Array? && exists k :: k in AllKeys(value) && IsPrivateName(k))
  }

  predicate IsPrivateName(key: string) {
    key == "client_ssh_credentials" || key == "redmine_auth" || IsSecretField(key)
  }

  /** Every field goes to the credentials alone or, for its public part, to the one file of its name. */
  lemma FieldsGoToTheirFile(payload: JsonObject, key: string)
    requires key in payload.fields
    ensures var parts, whole := Partition(payload), IsWhollyPrivate(key, payload.fields[key]);
      && (key in parts.deployment.fields <==> !whole && IsDeploymentName(key))
      && (key in parts.devices.fields <==> !whole && IsDeviceStateName(key))
      && (key in parts.preferences.fields <==> !whole && !IsDeploymentName(key) && !IsDeviceStateName(key))
      && (whole ==> key in parts.credentials.fields && parts.credentials.fields[key] == payload.fields[key])
  {
    hide IsSecretField, IsPrivateKey, ContainsSecret, AllKeys, MovesWhole, SectionOf, PrivatePart;
    hide IsWhollyPrivate, IsDeploymentName, IsDeviceStateName;
    WhollyPrivateMoves(key, payload.fields[key]);
    SectionOfName(key);
    if MovesWhole(key, payload.fields[key]) {
      WholeIsCopied(payload, key);
    }
  }

  lemma WholeIsCopied(payload: JsonObject, key: string)
    requires key in payload.fields && MovesWhole(key, payload.fields[key])
    ensures key in PrivatePart(payload).fields && PrivatePart(payload).fields[key] == payload.fields[key]
  {
    hide MovesWhole;
  }

  lemma SectionOfName(key: string)
    ensures SectionOf(key) == if IsDeploymentName(key) then Deployment
      else if IsDeviceStateName(key) then Devices else Preferences
    ensures !(IsDeploymentName(key) && IsDeviceStateName(key))
  {}

  lemma WhollyPrivateMoves(key: string, value: Json)
    ensures MovesWhole(key, value) <==> IsWhollyPrivate(key, value)
  {
    hide IsPrivateKey, IsPrivateName, ContainsSecret, AllKeys;
    ContainsSecretMeaning(value);
    forall k: string
      ensures IsPrivateKey(k) <==> IsPrivateName(k)
    {
      PrivateKeyByName(k);
    }
  }

  lemma PrivateKeyByName(key: string)
    ensures IsPrivateKey(key) <==> IsPrivateName(key)
  {
    hide IsSecretField;
  }

  // ---- Nothing is lost ----

  /** The private half laid over the public half is the original, at every depth. */
  lemma {:induction false} OverlayRestores(value: JsonObject)
    ensures Overlay(PublicPart(value), PrivatePart(value)) == value
  {
    var public, private := PublicPart(value), PrivatePart(value);
    forall k | k in value.fields
      ensures k in Overlay(public, private).fields && Overlay(public, private).fields[k] == value.fields[k]
    {
      if value.fields[k].Object? && !MovesWhole(k, value.fields[k]) {
        OverlayRestores(value.fields[k]);
        if PrivatePart(value.fields[k]) == EMPTY {
          OverlayNothing(PublicPart(value.fields[k]));
        }
      }
    }
    assert Overlay(public, private).fields == value.fields;
  }

  lemma OverlayNothing(base: JsonObject)
    ensures Overlay(base, EMPTY) == base
  {
    assert Overlay(base, EMPTY).fields == base.fields;
  }

  lemma OverlayDisjoint(base: JsonObject, extra: JsonObject)
    requires base.fields.Keys !! extra.fields.Keys
    ensures Overlay(base, extra) == Object(base.fields + extra.fields)
  {
    assert Overlay(base, extra).fields == base.fields + extra.fields;
  }

  lemma SectionsRejoin(ordinary: JsonObject)
    ensures Overlay(Overlay(Overlay(EMPTY, OrdinarySection(ordinary, Preferences)),
                            OrdinarySection(ordinary, Deployment)), OrdinarySection(ordinary, Devices))
         == ordinary
  {
    var p, d, s := OrdinarySection(ordinary, Preferences), OrdinarySection(ordinary, Deployment),
                   OrdinarySection(ordinary, Devices);
    OverlayDisjoint(EMPTY, p);
    assert EMPTY.fields + p.fields == p.fields;
    OverlayDisjoint(p, d);
    OverlayDisjoint(Object(p.fields + d.fields), s);
    assert p.fields + d.fields + s.fields == ordinary.fields;
  }

  /** Reading the four files back in order gives the payload that was partitioned. */
  lemma RoundTrip(payload: JsonObject)
    ensures Combine(Partition(payload)) == payload
  {
    SectionsRejoin(PublicPart(payload));
    OverlayRestores(payload);
  }

  // ---- Nothing private is published ----

  lemma {:induction false} PublicPartHasNoSecret(value: JsonObject)
    ensures !ContainsSecret(PublicPart(value))
  {
    forall k | k in PublicPart(value).fields
      ensures !IsPrivateKey(k) && !ContainsSecret(PublicPart(value).fields[k])
    {
      if value.fields[k].Object? {
        PublicPartHasNoSecret(value.fields[k]);
      }
    }
  }

  /** No private key occurs at any depth in the three files that are not the credentials file. */
  lemma OrdinaryFilesHoldNoSecret(payload: JsonObject, section: Section, key: string)
    requires section != Credentials
    ensures key in AllKeys(Partition(payload).At(section)) ==> !IsPrivateKey(key)
  {
    hide IsSecretField, IsPrivateKey, PublicPart, PrivatePart, AllKeys;
    var part := Partition(payload).At(section);
    PublicPartHasNoSecret(payload);
    assert forall k :: k in part.fields ==>
      k in PublicPart(payload).fields && part.fields[k] == PublicPart(payload).fields[k];
    assert !ContainsSecret(part);
    ContainsSecretMeaning(part);
  }

  /** Without a private key in the payload the credentials file stays empty. */
  lemma {:induction false} CredentialsOnlyWhenNeeded(value: JsonObject)
    ensures PrivatePart(value) == EMPTY <==> !ContainsSecret(value)
  {
    forall k | k in value.fields && value.fields[k].Object?
      ensures PrivatePart(value.fields[k]) == EMPTY <==> !ContainsSecret(value.fields[k])
    {
      CredentialsOnlyWhenNeeded(value.fields[k]);
    }
    if PrivatePart(value) == EMPTY {
      forall k | k in value.fields
        ensures !IsPrivateKey(k) && !ContainsSecret(value.fields[k])
      {
        assert k !in PrivatePart(value).fields;
      }
    } else {
      assert PrivatePart(value).fields != map[];
      var k :| k in PrivatePart(value).fields;
      assert IsPrivateKey(k) || ContainsSecret(value.fields[k]);
    }
  }
}
