/**
 The descriptor manifest: an ordered, validated list of roles and its one-string encoding.
 */
module Manifest {
  import opened Separated
  import opened Wrappers

  datatype ArtifactKind = Kernel | Initramfs | MemorySnapshot | DeviceState

  datatype DescriptorRole =
    | Kvm | Tap | RootDisk | OverlayHead | Artifact(kind: ArtifactKind) | Control | Log | Event

  datatype DescriptorKind = CharDevice | RegularFile | Socket | Fifo | AnonInode

  datatype ManifestError =
    | Empty | TooLong(max: nat) | MissingControl | DuplicateSingleton(role: DescriptorRole)
    | UnknownToken

  const STANDARD_STREAMS := 3
  const FIRST_MANIFEST_SLOT := STANDARD_STREAMS
  const MAX_ROLES := 60

  function ExpectedKinds(role: DescriptorRole): set<DescriptorKind> {
    match role
    case Kvm | Tap => {CharDevice}
    case RootDisk | OverlayHead | Artifact(_) => {RegularFile}
    case Control => {Socket}
    case Log => {Socket, RegularFile, Fifo, CharDevice}
    case Event => {AnonInode}
  }

  // Tokens

  function Token(role: DescriptorRole): string {
    match role
    case Kvm => "kvm"
    case Tap => "tap"
    case RootDisk => "root-disk"
    case OverlayHead => "overlay-head"
    case Artifact(Kernel) => "artifact.kernel"
    case Artifact(Initramfs) => "artifact.initramfs"
    case Artifact(MemorySnapshot) => "artifact.memory-snapshot"
    case Artifact(DeviceState) => "artifact.device-state"
    case Control => "control"
    case Log => "log"
    case Event => "event"
  }

  const ALL: seq<DescriptorRole> := [
    Kvm, Tap, RootDisk, OverlayHead, Artifact(Kernel), Artifact(Initramfs),
    Artifact(MemorySnapshot), Artifact(DeviceState), Control, Log, Event]

  function FindRole(roles: seq<DescriptorRole>, token: string): Option<DescriptorRole> {
    if roles == [] then None
    else if Token(roles[0]) == token then Some(roles[0])
    else FindRole(roles[1..], token)
  }

  function FromToken(token: string): Option<DescriptorRole> {
    FindRole(ALL, token)
  }

  lemma {:induction false} FindRoleFinds(roles: seq<DescriptorRole>, token: string)
    ensures match FindRole(roles, token)
            case Some(role) => role in roles && Token(role) == token
            case None => forall role <- roles :: Token(role) != token
  {
    if roles != [] { FindRoleFinds(roles[1..], token); }
  }

  /** No two roles share a token. */
  lemma TokensAreDistinct(a: DescriptorRole, b: DescriptorRole)
    requires Token(a) == Token(b)
    ensures a == b
  {
    var (s, t) := (Token(a), Token(b));
    assert |s| == |t| && s[0] == t[0] && s[|s| - 1] == t[|t| - 1] && s[1] == t[1];
    if |s| > 10 { assert s[9] == t[9]; }
  }

  lemma EveryRoleIsListed(role: DescriptorRole)
    ensures role in ALL
  {
    match role {
      case Kvm => assert role == ALL[0];
      case Tap => assert role == ALL[1];
      case RootDisk => assert role == ALL[2];
      case OverlayHead => assert role == ALL[3];
      case Artifact(Kernel) => assert role == ALL[4];
      case Artifact(Initramfs) => assert role == ALL[5];
      case Artifact(MemorySnapshot) => assert role == ALL[6];
      case Artifact(DeviceState) => assert role == ALL[7];
      case Control => assert role == ALL[8];
      case Log => assert role == ALL[9];
      case Event => assert role == ALL[10];
    }
  }

  lemma FromTokenInvertsToken(token: string, role: DescriptorRole)
    ensures FromToken(token) == Some(role) <==> token == Token(role)
  {
    FindRoleFinds(ALL, token);
    EveryRoleIsListed(role);
    if token == Token(role) && FromToken(token).Some? {
      TokensAreDistinct(role, FromToken(token).value);
    }
  }

  lemma TokensHaveNoComma(role: DescriptorRole)
    ensures ',' !in Token(role)
  {
  }

  // The manifest

  function Tokens(roles: seq<DescriptorRole>): (tokens: seq<string>)
    ensures |tokens| == |roles|
    ensures forall i :: 0 <= i < |roles| ==> tokens[i] == Token(roles[i])
  {
    seq(|roles|, i requires 0 <= i < |roles| => Token(roles[i]))
  }

  datatype DescriptorManifest = DescriptorManifest(roles: seq<DescriptorRole>) {
    function SlotOf(index: nat): nat { FIRST_MANIFEST_SLOT + index }

    function ExecutableSlot(): nat { SlotOf(|roles|) }

    function ReportSlot(): nat { ExecutableSlot() + 1 }

    function LauncherSealedLen(): nat { ReportSlot() + 1 }

    predicate Valid() { New(roles).Ok? }

    function Encode(): string { Join(Tokens(roles), ',') }
  }

  /** The first structural rule a role list breaks, in the order they are checked. */
  function New(roles: seq<DescriptorRole>): (r: Result<DescriptorManifest, ManifestError>)
    ensures r.Ok? <==>
      && 1 <= |roles| <= MAX_ROLES
      && multiset(roles)[Control] == 1
      && multiset(roles)[Kvm] <= 1
      && multiset(roles)[Tap] <= 1
    ensures r.Ok? ==> r.value.roles == roles
  {
    if roles == [] then Err(Empty)
    else if |roles| > MAX_ROLES then Err(TooLong(MAX_ROLES))
    else if multiset(roles)[Control] > 1 then Err(DuplicateSingleton(Control))
    else if multiset(roles)[Kvm] > 1 then Err(DuplicateSingleton(Kvm))
    else if multiset(roles)[Tap] > 1 then Err(DuplicateSingleton(Tap))
    else if Control !in roles then Err(MissingControl)
    else Ok(DescriptorManifest(roles))
  }

  function ReadRoles(tokens: seq<string>): Option<seq<DescriptorRole>> {
    if tokens == [] then Some([])
    else
      match (FromToken(tokens[0]), ReadRoles(tokens[1..]))
      case (Some(role), Some(rest)) => Some([role] + rest)
      case _ => None
  }

  function Decode(encoded: string): Result<DescriptorManifest, ManifestError> {
    match ReadRoles(Split(encoded, ','))
    case Some(roles) => New(roles)
    case None => Err(UnknownToken)
  }

  lemma {:induction false} ReadRolesInvertsTokens(
    tokens: seq<string>, roles: seq<DescriptorRole>)
    ensures ReadRoles(tokens) == Some(roles) <==> tokens == Tokens(roles)
  {
    if tokens == [] {
    } else if roles == [] {
      assert Tokens(roles) == [];
    } else {
      ReadRolesInvertsTokens(tokens[1..], roles[1..]);
      FromTokenInvertsToken(tokens[0], roles[0]);
      assert Tokens(roles)[1..] == Tokens(roles[1..]);
      assert roles == [roles[0]] + roles[1..];
      assert tokens == [tokens[0]] + tokens[1..];
    }
  }

  /**
   The encoding is exact both ways: a text decodes to a manifest if and only if the manifest is
   structurally valid and the text is its encoding. No two manifests share an encoding and no
   manifest has two.
   */
  lemma DecodeInvertsEncode(encoded: string, manifest: DescriptorManifest)
    ensures Decode(encoded) == Ok(manifest) <==> manifest.Valid() && encoded == manifest.Encode()
  {
    var parts := Split(encoded, ',');
    JoinSplit(encoded, ',');
    ReadRolesInvertsTokens(parts, manifest.roles);
    if manifest.Valid() && encoded == manifest.Encode() {
      forall part <- Tokens(manifest.roles) ensures ',' !in part {
        var i :| 0 <= i < |manifest.roles| && part == Token(manifest.roles[i]);
        TokensHaveNoComma(manifest.roles[i]);
      }
      SplitJoin(Tokens(manifest.roles), ',');
    }
  }
}
