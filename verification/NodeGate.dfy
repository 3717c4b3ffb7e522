/** The node reconciler's gate: which Deployment it writes from the (possibly old) objects it reads. */
module NodeGate {
  import opened Wrappers
  import opened Framing
  import opened Text
  import opened ConfigHash
  import opened ClusterConfig

  /** One reading of the caches. Spec and condition belong to one object; the rest may differ in age. */
  datatype NodeView = NodeView(
    spec: ClusterSpec,
    ready: Ready,
    admin: Option<AdminNode>,
    secret: Option<ConfigSecret>,
    creds: Credentials)

  function ViewOf(w: World): NodeView {
    NodeView(w.spec, w.ready, w.admin, w.secret, w.creds)
  }

  datatype Staleness = Fresh | Stale | Unknown

  /** clusterConfigStale; Unknown is its error return. */
  function ClusterConfigStale(v: NodeView): Staleness {
    if v.secret.None? then Stale
    else
      var s := v.secret.value;
      if !Populated(s) then Stale
      else if s.configHash == NoDigest || s.configHash != ConfigDigest(InputsFor(v.spec, v.admin)) then Stale
      else if s.keyHash == NoDigest then Fresh
      else match v.creds
        case Missing => Stale
        case Unreachable => Unknown
        case Readable(key) => if key != NoDigest && key != s.keyHash then Stale else Fresh
  }

  /** A Deployment as far as this protocol shapes it: the spec behind its pod template, and its stamp. */
  datatype Deployment = Deployment(spec: ClusterSpec, stamp: Digest)

  /** The config-hash annotation; `second` is the Secret as read again when the template is stamped. */
  function Stamp(second: Option<ConfigSecret>): Digest {
    if second.None? || second.value.data == "" then NoDigest else Sha256(second.value.data)
  }

  /** The Deployment written by one node reconcile, None when it defers, waits or fails. */
  function DeploymentWrite(v: NodeView, second: Option<ConfigSecret>): Option<Deployment> {
    if v.admin.Some? && (v.ready != IsReady || ClusterConfigStale(v) != Fresh) then None
    else Some(Deployment(v.spec, Stamp(second)))
  }
}
