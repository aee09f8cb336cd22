/**
 The system-managed fingerprint seed of a Codex connection. `EnsureSeed` is what every
 save of the connection applies; a run is a sequence of saves, each seeing what the one
 before it stored.
 */
module FingerprintSeed {
  import opened Options
  import opened Text
  import opened Json

  /**
   The provider-specific data of a connection: the properties `codexFingerprintSeed`,
   `codexFingerprintMode`, `codex_fingerprint_mode` and `codexInstallationId`, and all others by name.
   */
  datatype Data = Data(
    seed: Option<Json>, mode: Option<Json>, legacyMode: Option<Json>, installationId: Option<Json>,
    others: map<string, Json>)

  const EMPTY := Data(None, None, None, None, map[])
  const SESSION_PREFIX_V2 := "omniroute:codex-session-id:v2:"
  const INSTALLATION_PREFIX_V2 := "omniroute:codex-installation:v2:"
  const SESSION_PREFIX := "omniroute:codex-session-id:v1:"

  datatype Mode = Off | Device | Session | Full

  /** One save: what the client sent, the credentials merged with it, and a fresh random UUID. */
  datatype Save = Save(incoming: Option<Data>, accessToken: Option<Json>, refreshToken: Option<Json>, minted: string)

  predicate IsHex(c: char) {
    '0' <= c <= '9' || 'a' <= c <= 'f' || 'A' <= c <= 'F'
  }

  /** The RFC 4122 shape, version 1 to 5, in either case. */
  predicate IsUuid(s: string) {
    && |s| == 36
    && (forall i | 0 <= i < 36 :: if i == 8 || i == 13 || i == 18 || i == 23 then s[i] == '-' else IsHex(s[i]))
    && '1' <= s[14] <= '5'
    && (s[19] == '8' || s[19] == '9' || s[19] == 'a' || s[19] == 'b' || s[19] == 'A' || s[19] == 'B')
  }

  /** Hexadecimal digits, by their codes. */
  predicate AllHex(s: string) {
    forall i | 0 <= i < |s| :: var n := s[i] as int; 48 <= n <= 57 || 65 <= n <= 70 || 97 <= n <= 102
  }

  /** Five groups of 8, 4, 4, 4 and 12 digits with dashes between; a version and a variant start two of them. */
  ghost predicate AreGroups(s: string, a: string, b: string, c: string, d: string, e: string) {
    && s == a + ['-'] + b + ['-'] + c + ['-'] + d + ['-'] + e
    && |a| == 8 && |b| == 4 && |c| == 4 && |d| == 4 && |e| == 12
    && AllHex(a) && AllHex(b) && AllHex(c) && AllHex(d) && AllHex(e)
    && 49 <= c[0] as int <= 53 && d[0] as int in {56, 57, 97, 98, 65, 66}
  }

  ghost predicate IsGrouped(s: string) {
    exists a, b, c, d, e :: AreGroups(s, a, b, c, d, e)
  }

  lemma UuidIsGrouped(s: string)
    requires IsUuid(s)
    ensures IsGrouped(s)
  {
    var a, b, c, d, e := s[..8], s[9..13], s[14..18], s[19..23], s[24..];
    assert s == a + [s[8]] + b + [s[13]] + c + [s[18]] + d + [s[23]] + e;
    assert AreGroups(s, a, b, c, d, e);
  }

  lemma GroupedIsUuid(s: string, a: string, b: string, c: string, d: string, e: string)
    requires AreGroups(s, a, b, c, d, e)
    ensures IsUuid(s)
  {
    assert s[8] == '-' && s[13] == '-' && s[18] == '-' && s[23] == '-';
    assert s[14] == c[0] && s[19] == d[0];
    forall i | 0 <= i < 36 && i != 8 && i != 13 && i != 18 && i != 23 ensures IsHex(s[i]) {
      assert i < 8 ==> s[i] == a[i];
      assert 8 < i < 13 ==> s[i] == b[i - 9];
      assert 13 < i < 18 ==> s[i] == c[i - 14];
      assert 18 < i < 23 ==> s[i] == d[i - 19];
      assert 23 < i ==> s[i] == e[i - 24];
    }
  }

  /** The shape in its two readings. */
  lemma UuidIff(s: string)
    ensures IsUuid(s) <==> IsGrouped(s)
  {
    if IsUuid(s) {
      UuidIsGrouped(s);
    }
    if a, b, c, d, e :| AreGroups(s, a, b, c, d, e) {
      GroupedIsUuid(s, a, b, c, d, e);
    }
  }

  function NonEmpty(v: Option<Json>): string {
    if v.Some? && v.value.Str? then Trim(v.value.s) else ""
  }

  /** The stored seed, when there is one and it is a UUID. */
  function SeedOf(d: Option<Data>): (r: Option<string>)
    ensures r.Some? ==> IsUuid(r.value)
  {
    var s := if d.Some? then NonEmpty(d.value.seed) else "";
    if IsUuid(s) then Some(s) else None
  }

  predicate IsOAuth(save: Save) {
    NonEmpty(save.accessToken) != "" || NonEmpty(save.refreshToken) != ""
  }

  function ModeOf(lower: string -> string, d: Data): Mode {
    var primary := NonEmpty(d.mode);
    var raw := lower(if primary != "" then primary else NonEmpty(d.legacyMode));
    if raw == "off" then Off
    else if raw == "device" then Device
    else if raw == "full" then Full
    else Session
  }

  function NothingWhenEmpty(d: Data): Option<Data> {
    if d == EMPTY then None else Some(d)
  }

  /** The client's data with the system-managed key removed. */
  function Unseeded(save: Save): Data {
    if save.incoming.Some? then save.incoming.value.(seed := None) else EMPTY
  }

  /** What is stored by a save over `existing`. */
  function EnsureSeed(lower: string -> string, save: Save, existing: Option<Data>): Option<Data> {
    var data := Unseeded(save);
    if !IsOAuth(save) then NothingWhenEmpty(data)
    else if SeedOf(existing).Some? then Some(data.(seed := Some(Str(SeedOf(existing).value))))
    else if ModeOf(lower, data) != Off then Some(data.(seed := Some(Str(save.minted))))
    else NothingWhenEmpty(data)
  }

  /** The stored data after a run of saves over `stored`. */
  function RunSaves(lower: string -> string, saves: seq<Save>, stored: Option<Data>): Option<Data> {
    if saves == [] then stored else RunSaves(lower, saves[1..], EnsureSeed(lower, saves[0], stored))
  }

  /** The seed is the UUID under its key, white space around it aside; anything else there is no seed. */
  lemma SeedIs(d: Data, l: string, uuid: string, r: string)
    requires AllSpace(l) && AllSpace(r) && IsUuid(uuid)
    ensures SeedOf(Some(d.(seed := Some(Str(l + uuid + r))))) == Some(uuid)
    ensures SeedOf(None) == None && (d.seed.None? || !d.seed.value.Str? ==> SeedOf(Some(d)) == None)
  {
    assert IsHex(uuid[0]) && IsHex(uuid[35]);
    TrimBetween(l, uuid, r);
    assert !IsUuid("");
  }

  /** The first of the named properties that is not blank. */
  function FirstOf(d: Option<Data>, names: seq<string>): string {
    if names == [] then "default"
    else
      var value := if d.Some? && names[0] in d.value.others then NonEmpty(Some(d.value.others[names[0]])) else "";
      if value != "" then value else FirstOf(d, names[1..])
  }

  const ACCOUNT_PROPERTIES := ["connectionId", "workspaceId", "accountId", "email"]

  /** What identifies the account without a seed: its key, or else the first property there is. */
  function AccountSeed(d: Option<Data>, accountKey: Option<Json>): string {
    var key := NonEmpty(accountKey);
    if key != "" then key else FirstOf(d, ACCOUNT_PROPERTIES)
  }

  function ConvergedSessionId(derive: string -> string, d: Option<Data>, accountKey: Option<Json>): string {
    var seed := SeedOf(d);
    derive(if seed.Some? then SESSION_PREFIX_V2 + seed.value else SESSION_PREFIX + AccountSeed(d, accountKey))
  }

  /** An explicit id, the client's to set, when it is a UUID. */
  function ExplicitInstallation(d: Option<Data>): Option<string> {
    var s := if d.Some? then NonEmpty(d.value.installationId) else "";
    if IsUuid(s) then Some(s) else None
  }

  /** The explicit id, else one derived from the seed, else a legacy derivation. */
  function InstallationId(derive: string -> string, legacy: Option<Data> -> string, d: Option<Data>): string {
    var explicit, seed := ExplicitInstallation(d), SeedOf(d);
    if explicit.Some? then explicit.value
    else if seed.Some? then derive(INSTALLATION_PREFIX_V2 + seed.value)
    else legacy(d)
  }

  lemma UuidIsTrimmed(s: string)
    requires IsUuid(s)
    ensures Trim(s) == s
  {
    assert IsHex(s[0]) && IsHex(s[35]);
    TrimFixpoint(s);
  }

  /** What a save stores at the seed key, read back. */
  lemma StoredSeed(d: Data, seed: string)
    requires IsUuid(seed)
    ensures SeedOf(Some(d.(seed := Some(Str(seed))))) == Some(seed)
  {
    UuidIsTrimmed(seed);
  }

  /**
   A save never takes the seed from the client: the result ignores what was sent under the key.
   A present seed is kept exactly when the save carries OAuth credentials; an absent one is
   created, from fresh randomness, exactly when it does and the mode is not off.
   */
  lemma SaveDecidesSeed(lower: string -> string, save: Save, existing: Option<Data>, forged: Option<Json>)
    requires IsUuid(save.minted)
    ensures save.incoming.Some? ==>
              EnsureSeed(lower, save.(incoming := Some(save.incoming.value.(seed := forged))), existing)
              == EnsureSeed(lower, save, existing)
    ensures SeedOf(existing).Some? ==>
              (SeedOf(EnsureSeed(lower, save, existing)) == SeedOf(existing) <==> IsOAuth(save))
    ensures SeedOf(existing).None? ==>
              var mode := ModeOf(lower, Unseeded(save));
              SeedOf(EnsureSeed(lower, save, existing)) ==
              if IsOAuth(save) && mode != Off then Some(save.minted) else None
  {
    var data := Unseeded(save);
    StoredSeed(data, save.minted);
    if SeedOf(existing).Some? {
      StoredSeed(data, SeedOf(existing).value);
    }
    assert SeedOf(Some(data)).None? by {
      assert !IsUuid("");
    }
  }

  /** A save stores every other property as the client sent it. */
  lemma OtherPropertiesStored(lower: string -> string, save: Save, existing: Option<Data>)
    ensures var stored := EnsureSeed(lower, save, existing);
            && (if stored.Some? then stored.value else EMPTY).(seed := None) == Unseeded(save)
            && Unseeded(save) == (if save.incoming.Some? then save.incoming.value else EMPTY).(seed := None)
            && (stored.None? <==>
                && (save.incoming.None? || save.incoming.value.(seed := None) == EMPTY)
                && (!IsOAuth(save) || (SeedOf(existing).None? && ModeOf(lower, Unseeded(save)) == Off)))
  {
  }

  /** Over any run of OAuth saves a seed, once present, is never rotated or dropped. */
  lemma {:induction false} SeedSurvivesRuns(lower: string -> string, saves: seq<Save>, stored: Option<Data>)
    requires SeedOf(stored).Some?
    requires forall k | 0 <= k < |saves| :: IsOAuth(saves[k]) && IsUuid(saves[k].minted)
    ensures SeedOf(RunSaves(lower, saves, stored)) == SeedOf(stored)
  {
    if saves != [] {
      SaveDecidesSeed(lower, saves[0], stored, None);
      SeedSurvivesRuns(lower, saves[1..], EnsureSeed(lower, saves[0], stored));
    }
  }

  /** The seed a run ends with was there before it, or is the fresh UUID of one of its saves. */
  lemma {:induction false} SeedComesFromSystem(lower: string -> string, saves: seq<Save>, stored: Option<Data>)
    requires forall k | 0 <= k < |saves| :: IsUuid(saves[k].minted)
    ensures var seed := SeedOf(RunSaves(lower, saves, stored));
            seed.None? || seed == SeedOf(stored) || exists k | 0 <= k < |saves| :: seed == Some(saves[k].minted)
  {
    if saves != [] {
      SaveDecidesSeed(lower, saves[0], stored, None);
      var next := EnsureSeed(lower, saves[0], stored);
      SaveWithoutOAuthDropsSeed(lower, saves[0], stored);
      SeedComesFromSystem(lower, saves[1..], next);
      var seed := SeedOf(RunSaves(lower, saves, stored));
      if exists k | 0 <= k < |saves[1..]| :: seed == Some(saves[1..][k].minted) {
        var k :| 0 <= k < |saves[1..]| && seed == Some(saves[1..][k].minted);
        assert seed == Some(saves[k + 1].minted);
      }
    }
  }

  lemma SaveWithoutOAuthDropsSeed(lower: string -> string, save: Save, existing: Option<Data>)
    ensures !IsOAuth(save) ==> SeedOf(EnsureSeed(lower, save, existing)).None?
  {
    assert !IsUuid("");
  }

  /** So the converged session id is constant over any such run, whatever key the account has. */
  lemma {:induction false} SessionIdIsStable(
    lower: string -> string, derive: string -> string, saves: seq<Save>, stored: Option<Data>,
    key: Option<Json>, key': Option<Json>)
    requires SeedOf(stored).Some?
    requires forall k | 0 <= k < |saves| :: IsOAuth(saves[k]) && IsUuid(saves[k].minted)
    ensures ConvergedSessionId(derive, RunSaves(lower, saves, stored), key') == ConvergedSessionId(derive, stored, key)
    ensures ConvergedSessionId(derive, stored, key) == derive("omniroute:codex-session-id:v2:" + SeedOf(stored).value)
  {
    SeedSurvivesRuns(lower, saves, stored);
  }

  /** A save stores the explicit installation id of the client, so it is the last save's. */
  lemma {:induction false} ExplicitInstallationOfRun(lower: string -> string, saves: seq<Save>, stored: Option<Data>)
    requires saves != []
    ensures ExplicitInstallation(RunSaves(lower, saves, stored)) ==
            ExplicitInstallation(saves[|saves| - 1].incoming)
  {
    OtherPropertiesStored(lower, saves[0], stored);
    assert !IsUuid("");
    if |saves| > 1 {
      ExplicitInstallationOfRun(lower, saves[1..], EnsureSeed(lower, saves[0], stored));
    }
  }

  /**
   The installation id a run of OAuth saves ends with is the one the last save set explicitly, else
   the one derived from the seed that was there at the start.
   */
  lemma InstallationIdIsStable(
    lower: string -> string, derive: string -> string, legacy: Option<Data> -> string, saves: seq<Save>,
    stored: Option<Data>)
    requires SeedOf(stored).Some? && saves != []
    requires forall k | 0 <= k < |saves| :: IsOAuth(saves[k]) && IsUuid(saves[k].minted)
    ensures InstallationId(derive, legacy, RunSaves(lower, saves, stored)) ==
            var explicit := ExplicitInstallation(saves[|saves| - 1].incoming);
            if explicit.Some? then explicit.value else derive(INSTALLATION_PREFIX_V2 + SeedOf(stored).value)
  {
    SeedSurvivesRuns(lower, saves, stored);
    ExplicitInstallationOfRun(lower, saves, stored);
  }

  // ----- What the properties mean -----

  /** A string with something in it besides white space. */
  predicate Says(v: Option<Json>) {
    v.Some? && v.value.Str? && exists c | c in v.value.s :: !IsSpace(c)
  }

  lemma SaysIff(v: Option<Json>)
    ensures Says(v) <==> NonEmpty(v) != ""
    ensures Says(v) ==> NonEmpty(v) == Trim(v.value.s)
  {
    if v.Some? && v.value.Str? {
      var s := v.value.s;
      if Trim(s) == "" {
        BlankIsSpaces(s);
      } else {
        TrimResult(s);
        assert Trim(s)[0] in s && !IsSpace(Trim(s)[0]);
      }
    }
  }

  /** Either token makes the credentials OAuth. */
  lemma OAuthIff(save: Save)
    ensures IsOAuth(save) <==> Says(save.accessToken) || Says(save.refreshToken)
  {
    SaysIff(save.accessToken);
    SaysIff(save.refreshToken);
  }

  /** The mode property decides when it says something, else the legacy one; what is no mode is `session`. */
  lemma ModeIs(lower: string -> string, d: Data)
    ensures var deciding := if Says(d.mode) then d.mode else d.legacyMode;
            var word := lower(if Says(deciding) then Trim(deciding.value.s) else "");
            ModeOf(lower, d) ==
            if word == "off" then Off else if word == "device" then Device else if word == "full" then Full else Session
  {
    SaysIff(d.mode);
    SaysIff(d.legacyMode);
  }

  /** Without a seed the session id is derived from the account's key, else from the first property it has. */
  lemma SessionIdWithoutSeed(derive: string -> string, d: Option<Data>, key: Option<Json>)
    requires SeedOf(d).None?
    ensures Says(key) ==>
              ConvergedSessionId(derive, d, key) == derive("omniroute:codex-session-id:v1:" + Trim(key.value.s))
    ensures !Says(key) ==>
              ConvergedSessionId(derive, d, key) ==
              derive("omniroute:codex-session-id:v1:"
                     + FirstOf(d, ["connectionId", "workspaceId", "accountId", "email"]))
  {
    SaysIff(key);
  }

  /** The property under a name. */
  function Other(d: Option<Data>, name: string): Option<Json> {
    if d.Some? && name in d.value.others then Some(d.value.others[name]) else None
  }

  lemma {:induction false} FirstOfIsFirst(d: Option<Data>, names: seq<string>)
    ensures (forall k | 0 <= k < |names| :: !Says(Other(d, names[k]))) ==> FirstOf(d, names) == "default"
    ensures forall k | 0 <= k < |names| && Says(Other(d, names[k]))
                       && forall j | 0 <= j < k :: !Says(Other(d, names[j])) ::
              FirstOf(d, names) == Trim(Other(d, names[k]).value.s)
  {
    if names != [] {
      SaysIff(Other(d, names[0]));
      FirstOfIsFirst(d, names[1..]);
      assert forall k | 0 < k < |names| :: names[k] == names[1..][k - 1];
      if !Says(Other(d, names[0])) {
        forall k | 0 <= k < |names| && Says(Other(d, names[k])) && forall j | 0 <= j < k :: !Says(Other(d, names[j]))
          ensures FirstOf(d, names) == Trim(Other(d, names[k]).value.s)
        {
          assert forall j | 0 <= j < k - 1 :: names[1..][j] == names[j + 1];
          assert names[1..][k - 1] == names[k];
        }
      }
    }
  }
}
