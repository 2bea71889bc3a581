/** Deployed build identifiers and the drift predicate of the release manager
    client (internal/deploy/artifact.go). */
module Artifacts {

  /** Go's `int64`. Artifact times are only compared, never computed with. */
  newtype int64 = x: int | -0x8000_0000_0000_0000 <= x < 0x8000_0000_0000_0000

  /** One deployed build: its deployment time (`date`) and its tag. */
  datatype Artifact = Artifact(time: int64, name: string)

  /** Go's zero value `Artifact{}`: what a missing environment decodes to. */
  const ZeroArtifact := Artifact(0, "")

  /** One poll's snapshot of a service's `dev` and `prod` environments. */
  datatype Artifacts = Artifacts(service: string, prod: Artifact, dev: Artifact)

  /** `Artifact.Equals`: field-wise comparison, which is exactly value equality
      (hence reflexive, symmetric and transitive). */
  predicate Equals(a: Artifact, b: Artifact): (r: bool)
    ensures r <==> a == b
  {
    a.name == b.name && a.time == b.time
  }

  /** `Artifacts.IsProdBehind`: prod holds a real artifact, different from dev's,
      deployed at a known time strictly before dev's. */
  predicate IsProdBehind(a: Artifacts): (r: bool)
    ensures a.prod.name == [] ==> !r
    ensures a.prod.name == a.dev.name ==> !r
    ensures a.prod.time == 0 ==> !r
    ensures a.prod.time >= a.dev.time ==> !r
    ensures r <==> a.prod.name != [] && a.prod.name != a.dev.name && a.prod.time != 0 && a.prod.time < a.dev.time
  {
    if a.prod.name == "" then false
    else if a.prod.name == a.dev.name then false
    else if a.prod.time == 0 then false
    else if a.prod.time >= a.dev.time then false
    else true
  }

  /** Drift is a real difference: the two environments never hold equal
      artifacts, and dev is not the zero artifact unless prod's time is negative. */
  lemma DriftSeparatesEnvironments(a: Artifacts)
    requires IsProdBehind(a)
    ensures !Equals(a.prod, a.dev) && a.prod != ZeroArtifact
    ensures a.dev == ZeroArtifact ==> a.prod.time < 0
  {
  }
}
