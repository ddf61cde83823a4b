/** Job templates: the security policy they are validated against, the defaults that harden
    them, and the certificate Secret that is mounted into them. */
module JobSecurity {

  datatype Option<+T> = None | Some(value: T)

  datatype Capabilities = Capabilities(add: seq<string>, drop: seq<string>)

  datatype SecurityContext = SecurityContext(
    privileged: Option<bool>,
    allowPrivilegeEscalation: Option<bool>,
    capabilities: Option<Capabilities>,
    runAsUser: Option<int>,
    runAsNonRoot: Option<bool>,
    seccompProfile: Option<string>)

  datatype VolumeMount = VolumeMount(name: string, mountPath: string, readOnly: bool)

  datatype Container = Container(name: string, security: Option<SecurityContext>, mounts: seq<VolumeMount>)

  /** `projected` lists, per projected source, whether it is a service account token. */
  datatype Volume = Volume(name: string, hostPath: bool, projected: Option<seq<bool>>, secret: Option<string>)

  datatype PodSecurity = PodSecurity(runAsUser: Option<int>, runAsNonRoot: Option<bool>, seccompProfile: Option<string>)

  datatype JobSpec = JobSpec(
    ttl: Option<int>,
    podLabels: set<string>,
    hostNetwork: bool,
    hostPID: bool,
    hostIPC: bool,
    serviceAccountName: string,
    automountToken: Option<bool>,
    enableServiceLinks: Option<bool>,
    podSecurity: Option<PodSecurity>,
    volumes: seq<Volume>,
    initContainers: seq<Container>,
    containers: seq<Container>)

  const RUNTIME_DEFAULT := "RuntimeDefault"
  const ALL := "ALL"
  const SECRET_VOLUME := "certificate-input"
  const SECRET_PATH := "/var/run/certificate-input"

  const EMPTY_CONTEXT := SecurityContext(None, None, None, None, None, None)

  /** The zero value of a Go Job spec, read when a node has no template any more. */
  const EMPTY_SPEC := JobSpec(None, {}, false, false, false, "", None, None, None, [], [], [])

  /** `BoolPointerTrue`, and its counterpart for an explicit false. */
  predicate IsTrue(o: Option<bool>) { o.Some? && o.value }

  predicate IsFalse(o: Option<bool>) { o.Some? && !o.value }

  predicate IsRoot(o: Option<int>) { o.Some? && o.value == 0 }

  // ---- Policy -------------------------------------------------------------------------------

  predicate PermittedContext(c: SecurityContext) {
    && !IsTrue(c.privileged)
    && !IsTrue(c.allowPrivilegeEscalation)
    && (c.capabilities.Some? ==> c.capabilities.value.add == [])
    && !IsRoot(c.runAsUser)
    && !IsFalse(c.runAsNonRoot)
  }

  predicate PermittedContainer(c: Container) {
    c.security.Some? ==> PermittedContext(c.security.value)
  }

  predicate PermittedVolume(v: Volume) {
    !v.hostPath && (v.projected.Some? ==> true !in v.projected.value)
  }

  predicate PermittedPod(p: PodSecurity) {
    !IsRoot(p.runAsUser) && !IsFalse(p.runAsNonRoot)
  }

  /** What the template policy forbids, read as a property of the whole template. */
  predicate Permitted(s: JobSpec) {
    && !s.hostNetwork && !s.hostPID && !s.hostIPC
    && s.serviceAccountName == ""
    && !IsTrue(s.automountToken)
    && (s.podSecurity.Some? ==> PermittedPod(s.podSecurity.value))
    && (forall v | v in s.volumes :: PermittedVolume(v))
    && (forall c | c in s.initContainers :: PermittedContainer(c))
    && (forall c | c in s.containers :: PermittedContainer(c))
  }

  datatype SecurityError =
    | HostNetwork | HostPID | HostIPC | ServiceAccountName | AutomountToken
    | PodRunsAsRoot | PodRootAllowed
    | HostPathVolume(name: string) | TokenVolume(name: string)
    | Privileged(name: string) | PrivilegeEscalation(name: string) | AddsCapabilities(name: string)
    | RunsAsRoot(name: string) | RootAllowed(name: string)

  /** The settings of a container; one without a security context has none. */
  function SettingsOf(c: Container): SecurityContext {
    if c.security.Some? then c.security.value else SecurityContext(None, None, None, None, None, None)
  }

  ghost predicate VolumeViolates(volumes: seq<Volume>, e: SecurityError) {
    match e
    case HostPathVolume(n) => exists v :: v in volumes && v.name == n && v.hostPath
    case TokenVolume(n) =>
      exists v :: v in volumes && v.name == n && v.projected.Some?
                  && exists k :: 0 <= k < |v.projected.value| && v.projected.value[k]
    case _ => false
  }

  ghost predicate ContainerViolates(cs: seq<Container>, e: SecurityError) {
    match e
    case Privileged(n) => exists c :: c in cs && c.name == n && SettingsOf(c).privileged == Some(true)
    case PrivilegeEscalation(n) =>
      exists c :: c in cs && c.name == n && SettingsOf(c).allowPrivilegeEscalation == Some(true)
    case AddsCapabilities(n) =>
      exists c :: c in cs && c.name == n && SettingsOf(c).capabilities.Some?
                  && |SettingsOf(c).capabilities.value.add| > 0
    case RunsAsRoot(n) => exists c :: c in cs && c.name == n && SettingsOf(c).runAsUser == Some(0)
    case RootAllowed(n) => exists c :: c in cs && c.name == n && SettingsOf(c).runAsNonRoot == Some(false)
    case _ => false
  }

  /** The template does what this error is about. */
  ghost predicate Violates(s: JobSpec, e: SecurityError) {
    match e
    case HostNetwork => s.hostNetwork
    case HostPID => s.hostPID
    case HostIPC => s.hostIPC
    case ServiceAccountName => s.serviceAccountName != ""
    case AutomountToken => s.automountToken == Some(true)
    case PodRunsAsRoot => s.podSecurity.Some? && s.podSecurity.value.runAsUser == Some(0)
    case PodRootAllowed => s.podSecurity.Some? && s.podSecurity.value.runAsNonRoot == Some(false)
    case _ => VolumeViolates(s.volumes, e) || ContainerViolates(s.initContainers + s.containers, e)
  }

  lemma PermittedViolatesNothing(s: JobSpec, e: SecurityError)
    requires Permitted(s)
    ensures !Violates(s, e)
  {
    forall c | c in s.initContainers + s.containers ensures PermittedContainer(c) {
      assert c in s.initContainers || c in s.containers;
    }
  }

  /** A template is permitted exactly if it does nothing that one of the errors is about. */
  lemma PermittedIff(s: JobSpec)
    ensures Permitted(s) <==> forall e :: !Violates(s, e)
  {
    if Permitted(s) {
      forall e ensures !Violates(s, e) { PermittedViolatesNothing(s, e); }
    } else {
      var e := ViolationOf(s);
    }
  }

  lemma ViolationOf(s: JobSpec) returns (e: SecurityError)
    requires !Permitted(s)
    ensures Violates(s, e)
  {
    if s.hostNetwork { return HostNetwork; }
    if s.hostPID { return HostPID; }
    if s.hostIPC { return HostIPC; }
    if s.serviceAccountName != "" { return ServiceAccountName; }
    if IsTrue(s.automountToken) { return AutomountToken; }
    if s.podSecurity.Some? && !PermittedPod(s.podSecurity.value) {
      return if IsRoot(s.podSecurity.value.runAsUser) then PodRunsAsRoot else PodRootAllowed;
    }
    if v :| v in s.volumes && !PermittedVolume(v) {
      return if v.hostPath then HostPathVolume(v.name) else TokenVolume(v.name);
    }
    var c :| (c in s.initContainers || c in s.containers) && !PermittedContainer(c);
    assert c in s.initContainers + s.containers;
    e := ContainerViolation(c);
  }

  lemma ContainerViolation(c: Container) returns (e: SecurityError)
    requires !PermittedContainer(c)
    ensures forall cs | c in cs :: ContainerViolates(cs, e)
    ensures !e.HostNetwork? && !e.HostPID? && !e.HostIPC? && !e.ServiceAccountName? && !e.AutomountToken?
    ensures !e.PodRunsAsRoot? && !e.PodRootAllowed?
  {
    var context := SettingsOf(c);
    if IsTrue(context.privileged) { return Privileged(c.name); }
    if IsTrue(context.allowPrivilegeEscalation) { return PrivilegeEscalation(c.name); }
    if context.capabilities.Some? && context.capabilities.value.add != [] { return AddsCapabilities(c.name); }
    if IsRoot(context.runAsUser) { return RunsAsRoot(c.name); }
    return RootAllowed(c.name);
  }

  method ValidateVolumes(volumes: seq<Volume>) returns (err: Option<SecurityError>)
    ensures err.None? <==> forall v | v in volumes :: PermittedVolume(v)
    ensures err.Some? ==> VolumeViolates(volumes, err.value)
  {
    for i := 0 to |volumes|
      invariant forall k | 0 <= k < i :: PermittedVolume(volumes[k])
    {
      var volume := volumes[i];
      assert volume in volumes;
      if volume.hostPath { return Some(HostPathVolume(volume.name)); }
      if volume.projected.Some? {
        var sources := volume.projected.value;
        for k := 0 to |sources|
          invariant true !in sources[..k]
        {
          if sources[k] { return Some(TokenVolume(volume.name)); }
        }
        assert sources[..|sources|] == sources;
      }
    }
    return None;
  }

  method ValidateContainers(containers: seq<Container>) returns (err: Option<SecurityError>)
    ensures err.None? <==> forall c | c in containers :: PermittedContainer(c)
    ensures err.Some? ==> ContainerViolates(containers, err.value)
  {
    for i := 0 to |containers|
      invariant forall k | 0 <= k < i :: PermittedContainer(containers[k])
    {
      var container := containers[i];
      assert container in containers;
      if container.security.Some? {
        var context := container.security.value;
        if IsTrue(context.privileged) { return Some(Privileged(container.name)); }
        if IsTrue(context.allowPrivilegeEscalation) { return Some(PrivilegeEscalation(container.name)); }
        if context.capabilities.Some? && |context.capabilities.value.add| > 0 {
          return Some(AddsCapabilities(container.name));
        }
        if IsRoot(context.runAsUser) { return Some(RunsAsRoot(container.name)); }
        if IsFalse(context.runAsNonRoot) { return Some(RootAllowed(container.name)); }
      }
    }
    return None;
  }

  /** `ValidateJobTemplateSecurity`: no error exactly when the template is permitted, and an error only
      for what the template does. */
  method ValidateJobTemplateSecurity(s: JobSpec) returns (err: Option<SecurityError>)
    ensures err.None? <==> Permitted(s)
    ensures err.Some? ==> Violates(s, err.value)
  {
    if s.hostNetwork { return Some(HostNetwork); }
    if s.hostPID { return Some(HostPID); }
    if s.hostIPC { return Some(HostIPC); }
    if s.serviceAccountName != "" { return Some(ServiceAccountName); }
    if IsTrue(s.automountToken) { return Some(AutomountToken); }
    if s.podSecurity.Some? {
      if IsRoot(s.podSecurity.value.runAsUser) { return Some(PodRunsAsRoot); }
      if IsFalse(s.podSecurity.value.runAsNonRoot) { return Some(PodRootAllowed); }
    }
    err := ValidateVolumes(s.volumes);
    if err.Some? { return; }
    err := ValidateContainers(s.initContainers + s.containers);
    assert forall c :: c in s.initContainers + s.containers <==> c in s.initContainers || c in s.containers;
  }

  // ---- Hardening ----------------------------------------------------------------------------

  function Or<T>(o: Option<T>, d: T): Option<T> {
    if o.None? then Some(d) else o
  }

  function DefaultedCapabilities(c: Option<Capabilities>): Capabilities {
    if c.None? then Capabilities([], [ALL])
    else if ALL in c.value.drop then c.value
    else c.value.(drop := c.value.drop + [ALL])
  }

  function DefaultedContext(c: SecurityContext): SecurityContext {
    c.(allowPrivilegeEscalation := Or(c.allowPrivilegeEscalation, false),
       seccompProfile := Or(c.seccompProfile, RUNTIME_DEFAULT),
       runAsNonRoot := Or(c.runAsNonRoot, true),
       capabilities := Some(DefaultedCapabilities(c.capabilities)))
  }

  function DefaultedContainer(c: Container): Container {
    c.(security := Some(DefaultedContext(if c.security.None? then EMPTY_CONTEXT else c.security.value)))
  }

  function DefaultedContainers(cs: seq<Container>): seq<Container> {
    seq(|cs|, i requires 0 <= i < |cs| => DefaultedContainer(cs[i]))
  }

  function DefaultedPod(p: Option<PodSecurity>): PodSecurity {
    var q := if p.None? then PodSecurity(None, None, None) else p.value;
    q.(seccompProfile := Or(q.seccompProfile, RUNTIME_DEFAULT), runAsNonRoot := Or(q.runAsNonRoot, true))
  }

  /** The template after `ApplyJobSecurityDefaults`. */
  function Defaulted(s: JobSpec, defaultTTL: int): JobSpec {
    s.(ttl := Or(s.ttl, defaultTTL),
       automountToken := Some(false),
       enableServiceLinks := Or(s.enableServiceLinks, false),
       podSecurity := Some(DefaultedPod(s.podSecurity)),
       initContainers := DefaultedContainers(s.initContainers),
       containers := DefaultedContainers(s.containers))
  }

  /** What a container of a Job that is allowed to run looks like. */
  predicate HardenedContainer(c: Container) {
    && c.security.Some?
    && PermittedContext(c.security.value)
    && IsFalse(c.security.value.allowPrivilegeEscalation)
    && IsTrue(c.security.value.runAsNonRoot)
    && c.security.value.seccompProfile.Some?
    && c.security.value.capabilities.Some?
    && ALL in c.security.value.capabilities.value.drop
  }

  predicate Hardened(s: JobSpec) {
    && Permitted(s)
    && s.ttl.Some?
    && IsFalse(s.automountToken)
    && s.enableServiceLinks.Some?
    && s.podSecurity.Some?
    && IsTrue(s.podSecurity.value.runAsNonRoot)
    && s.podSecurity.value.seccompProfile.Some?
    && (forall c | c in s.initContainers :: HardenedContainer(c))
    && (forall c | c in s.containers :: HardenedContainer(c))
  }

  /** `containsCapability`, a loop over the dropped capabilities. */
  method ContainsCapability(capabilities: seq<string>) returns (found: bool)
    ensures found <==> ALL in capabilities
  {
    for i := 0 to |capabilities|
      invariant ALL !in capabilities[..i]
    {
      if capabilities[i] == ALL { return true; }
    }
    assert capabilities[..|capabilities|] == capabilities;
    return false;
  }

  /** `applyContainerSecurityDefaults` on one container. */
  method ApplyContainerDefaults(container: Container) returns (r: Container)
    ensures r == DefaultedContainer(container)
  {
    var context := if container.security.None? then EMPTY_CONTEXT else container.security.value;
    if context.allowPrivilegeEscalation.None? { context := context.(allowPrivilegeEscalation := Some(false)); }
    if context.seccompProfile.None? { context := context.(seccompProfile := Some(RUNTIME_DEFAULT)); }
    if context.runAsNonRoot.None? { context := context.(runAsNonRoot := Some(true)); }
    if context.capabilities.None? {
      context := context.(capabilities := Some(Capabilities([], [ALL])));
      return container.(security := Some(context));
    }
    var dropped := ContainsCapability(context.capabilities.value.drop);
    if !dropped {
      var kept := context.capabilities.value;
      context := context.(capabilities := Some(kept.(drop := kept.drop + [ALL])));
    }
    return container.(security := Some(context));
  }

  lemma DefaultedMember(cs: seq<Container>, c: Container)
    ensures c in DefaultedContainers(cs) <==> exists o :: o in cs && c == DefaultedContainer(o)
  {
    if c in DefaultedContainers(cs) {
      var i :| 0 <= i < |cs| && DefaultedContainers(cs)[i] == c;
      assert cs[i] in cs;
    }
    if exists o :: o in cs && c == DefaultedContainer(o) {
      var o :| o in cs && c == DefaultedContainer(o);
      var i :| 0 <= i < |cs| && cs[i] == o;
      assert DefaultedContainers(cs)[i] == c;
    }
  }

  lemma DefaultedContainersIdempotent(cs: seq<Container>)
    ensures DefaultedContainers(DefaultedContainers(cs)) == DefaultedContainers(cs)
  {
    var once := DefaultedContainers(cs);
    forall i | 0 <= i < |cs| ensures DefaultedContainers(once)[i] == once[i] {}
  }

  /** Hardening twice is hardening once, whatever TTL the second application is given: the
      scheduler changes nothing the admission webhook has already set. */
  lemma HardeningIsIdempotent(s: JobSpec, first: int, second: int)
    ensures Defaulted(Defaulted(s, first), second) == Defaulted(s, first)
  {
    DefaultedContainersIdempotent(s.initContainers);
    DefaultedContainersIdempotent(s.containers);
  }

  lemma HardenedContainers(cs: seq<Container>)
    ensures (forall c | c in DefaultedContainers(cs) :: PermittedContainer(c))
            <==> (forall c | c in cs :: PermittedContainer(c))
    ensures (forall c | c in DefaultedContainers(cs) :: HardenedContainer(c))
            <==> (forall c | c in cs :: PermittedContainer(c))
  {
    forall c | c in DefaultedContainers(cs) && forall o | o in cs :: PermittedContainer(o)
      ensures PermittedContainer(c) && HardenedContainer(c)
    {
      DefaultedMember(cs, c);
    }
    forall o | o in cs && !PermittedContainer(o)
      ensures DefaultedContainer(o) in DefaultedContainers(cs)
      ensures !PermittedContainer(DefaultedContainer(o)) && !HardenedContainer(DefaultedContainer(o))
    {
      DefaultedMember(cs, DefaultedContainer(o));
    }
  }

  /** Hardening and validation commute but for the one field hardening overwrites, and what comes
      out hardened is exactly what would have been permitted. */
  lemma HardenedIffPermitted(s: JobSpec, defaultTTL: int)
    ensures Permitted(Defaulted(s, defaultTTL)) <==> Permitted(s.(automountToken := None))
    ensures Hardened(Defaulted(s, defaultTTL)) <==> Permitted(s.(automountToken := None))
  {
    HardenedContainers(s.initContainers);
    HardenedContainers(s.containers);
  }

  /** What was chosen stays, a gap is filled with `gap`. */
  predicate Fills<T(==)>(before: Option<T>, gap: T, after: Option<T>) {
    after == Some(if before.Some? then before.value else gap)
  }

  /** A container's own settings after hardening: every setting it had, each gap filled, and ALL among
      the dropped capabilities. */
  predicate FillsContext(c: SecurityContext, d: SecurityContext) {
    && d.privileged == c.privileged && d.runAsUser == c.runAsUser
    && Fills(c.allowPrivilegeEscalation, false, d.allowPrivilegeEscalation)
    && Fills(c.runAsNonRoot, true, d.runAsNonRoot)
    && Fills(c.seccompProfile, "RuntimeDefault", d.seccompProfile)
    && d.capabilities.Some?
    && match c.capabilities
       case None => d.capabilities.value == Capabilities([], ["ALL"])
       case Some(had) =>
         && d.capabilities.value.add == had.add
         && d.capabilities.value.drop == if "ALL" in had.drop then had.drop else had.drop + ["ALL"]
  }

  predicate FillsContainer(c: Container, d: Container) {
    && d.name == c.name && d.mounts == c.mounts && d.security.Some?
    && match c.security
       case None =>
         d.security.value == SecurityContext(
           None, Some(false), Some(Capabilities([], ["ALL"])), None, Some(true), Some("RuntimeDefault"))
       case Some(had) => FillsContext(had, d.security.value)
  }

  predicate FillsPod(p: Option<PodSecurity>, q: Option<PodSecurity>) {
    && q.Some?
    && match p
       case None => q.value == PodSecurity(None, Some(true), Some("RuntimeDefault"))
       case Some(had) =>
         && q.value.runAsUser == had.runAsUser
         && Fills(had.runAsNonRoot, true, q.value.runAsNonRoot)
         && Fills(had.seccompProfile, "RuntimeDefault", q.value.seccompProfile)
  }

  predicate FillsContainers(cs: seq<Container>, ds: seq<Container>) {
    |ds| == |cs| && forall i | 0 <= i < |cs| :: FillsContainer(cs[i], ds[i])
  }

  /** Hardening only fills gaps: but for the token, what a template chose stays chosen, field by
      field and container by container, and what it left open gets the documented value. */
  lemma HardeningKeepsChoices(s: JobSpec, defaultTTL: int)
    ensures var r := Defaulted(s, defaultTTL);
            && Fills(s.ttl, defaultTTL, r.ttl) && Fills(s.enableServiceLinks, false, r.enableServiceLinks)
            && FillsPod(s.podSecurity, r.podSecurity)
            && FillsContainers(s.initContainers, r.initContainers) && FillsContainers(s.containers, r.containers)
            && r == s.(ttl := r.ttl, automountToken := Some(false), enableServiceLinks := r.enableServiceLinks,
                       podSecurity := r.podSecurity, initContainers := r.initContainers, containers := r.containers)
  {
    DefaultedFills(s.initContainers);
    DefaultedFills(s.containers);
  }

  lemma {:induction false} DefaultedFills(cs: seq<Container>)
    ensures FillsContainers(cs, DefaultedContainers(cs))
  {
    forall i | 0 <= i < |cs| ensures FillsContainer(cs[i], DefaultedContainer(cs[i])) {}
  }

  /** Validating before hardening is stricter: a template that asks for the token is refused then,
      and accepted after. */
  lemma OrderMattersForToken(defaultTTL: int)
    ensures var s := EMPTY_SPEC.(automountToken := Some(true));
            !Permitted(s) && Permitted(Defaulted(s, defaultTTL))
  {
    HardenedIffPermitted(EMPTY_SPEC.(automountToken := Some(true)), defaultTTL);
  }

  // ---- Secret injection ---------------------------------------------------------------------

  /** The volume list with the Secret put in the first volume of that name, or appended. */
  function WithVolume(vs: seq<Volume>, secret: string): seq<Volume> {
    if vs == [] then [Volume(SECRET_VOLUME, false, None, Some(secret))]
    else if vs[0].name == SECRET_VOLUME then [vs[0].(secret := Some(secret))] + vs[1..]
    else [vs[0]] + WithVolume(vs[1..], secret)
  }

  lemma {:induction false} WithVolumeHolds(vs: seq<Volume>, secret: string)
    ensures (forall v | v in vs :: PermittedVolume(v)) ==> forall v | v in WithVolume(vs, secret) :: PermittedVolume(v)
    ensures exists v :: v in WithVolume(vs, secret) && v.name == SECRET_VOLUME && v.secret == Some(secret)
  {
    var r := WithVolume(vs, secret);
    if vs == [] {
      assert r[0] in r;
    } else if vs[0].name == SECRET_VOLUME {
      assert r[0] in r;
      assert vs[0] in vs;
    } else {
      WithVolumeHolds(vs[1..], secret);
      var v :| v in WithVolume(vs[1..], secret) && v.name == SECRET_VOLUME && v.secret == Some(secret);
      assert v in r;
    }
  }

  /** The loop's view: the first volume of that name is changed in place, or one is appended. */
  lemma {:induction false} WithVolumeAt(vs: seq<Volume>, secret: string, i: nat)
    requires i <= |vs| && forall k | 0 <= k < i :: vs[k].name != SECRET_VOLUME
    ensures i < |vs| && vs[i].name == SECRET_VOLUME ==>
            WithVolume(vs, secret) == vs[i := vs[i].(secret := Some(secret))]
    ensures i == |vs| ==> WithVolume(vs, secret) == vs + [Volume(SECRET_VOLUME, false, None, Some(secret))]
  {
    if i > 0 {
      WithVolumeAt(vs[1..], secret, i - 1);
      assert vs == [vs[0]] + vs[1..];
    }
  }

  const SECRET_MOUNT := VolumeMount(SECRET_VOLUME, SECRET_PATH, true)

  /** The mount list with the Secret's mount in place of the first of that name, or appended. */
  function WithMount(ms: seq<VolumeMount>): seq<VolumeMount> {
    if ms == [] then [SECRET_MOUNT]
    else if ms[0].name == SECRET_VOLUME then [SECRET_MOUNT] + ms[1..]
    else [ms[0]] + WithMount(ms[1..])
  }

  lemma {:induction false} WithMountHolds(ms: seq<VolumeMount>)
    ensures SECRET_MOUNT in WithMount(ms)
  {
    if ms != [] && ms[0].name != SECRET_VOLUME { WithMountHolds(ms[1..]); }
  }

  lemma {:induction false} WithMountAt(ms: seq<VolumeMount>, i: nat)
    requires i <= |ms| && forall k | 0 <= k < i :: ms[k].name != SECRET_VOLUME
    ensures i < |ms| && ms[i].name == SECRET_VOLUME ==> WithMount(ms) == ms[i := SECRET_MOUNT]
    ensures i == |ms| ==> WithMount(ms) == ms + [SECRET_MOUNT]
  {
    if i > 0 {
      WithMountAt(ms[1..], i - 1);
      assert ms == [ms[0]] + ms[1..];
    }
  }

  /** `ensureVolumeMount` on one container. */
  method EnsureVolumeMount(container: Container) returns (r: Container)
    ensures r == container.(mounts := WithMount(container.mounts))
  {
    var ms := container.mounts;
    for i := 0 to |ms|
      invariant forall k | 0 <= k < i :: ms[k].name != SECRET_VOLUME
    {
      if ms[i].name == SECRET_VOLUME {
        WithMountAt(ms, i);
        return container.(mounts := ms[i := ms[i].(mountPath := SECRET_PATH, readOnly := true)]);
      }
    }
    WithMountAt(ms, |ms|);
    return container.(mounts := ms + [SECRET_MOUNT]);
  }

  function MountedContainers(cs: seq<Container>): seq<Container> {
    seq(|cs|, i requires 0 <= i < |cs| => cs[i].(mounts := WithMount(cs[i].mounts)))
  }

  /** The template after `injectCertificateSecret`. */
  function Injected(s: JobSpec, secret: string): JobSpec {
    if secret == "" then s
    else s.(volumes := WithVolume(s.volumes, secret),
            initContainers := MountedContainers(s.initContainers),
            containers := MountedContainers(s.containers))
  }

  predicate MountsSecret(s: JobSpec, secret: string) {
    && (exists v :: v in s.volumes && v.name == SECRET_VOLUME && v.secret == Some(secret))
    && (forall c | c in s.initContainers :: SECRET_MOUNT in c.mounts)
    && (forall c | c in s.containers :: SECRET_MOUNT in c.mounts)
  }

  /** The list keeps every volume; the first one named for the Secret gets it, or one is appended. */
  predicate VolumesWith(vs: seq<Volume>, secret: string, us: seq<Volume>) {
    if forall k | 0 <= k < |vs| :: vs[k].name != "certificate-input"
    then us == vs + [Volume("certificate-input", false, None, Some(secret))]
    else |us| == |vs| && forall i | 0 <= i < |vs| ::
           us[i] == if vs[i].name == "certificate-input" && forall k | 0 <= k < i :: vs[k].name != "certificate-input"
                    then vs[i].(secret := Some(secret)) else vs[i]
  }

  /** The list keeps every mount; the first one named for the Secret is replaced, or one is appended. */
  predicate MountsWith(ms: seq<VolumeMount>, ns: seq<VolumeMount>) {
    var mount := VolumeMount("certificate-input", "/var/run/certificate-input", true);
    if forall k | 0 <= k < |ms| :: ms[k].name != "certificate-input"
    then ns == ms + [mount]
    else |ns| == |ms| && forall i | 0 <= i < |ms| ::
           ns[i] == if ms[i].name == "certificate-input" && forall k | 0 <= k < i :: ms[k].name != "certificate-input"
                    then mount else ms[i]
  }

  /** The first place of the Secret's name in a list of names, or its length. */
  lemma {:induction false} FirstNamed(names: seq<string>, n: nat) returns (i: nat)
    requires n <= |names|
    ensures i <= n && forall k | 0 <= k < i :: names[k] != SECRET_VOLUME
    ensures i < n ==> names[i] == SECRET_VOLUME
  {
    if n == 0 { return 0; }
    i := FirstNamed(names, n - 1);
    if i == n - 1 && names[i] != SECRET_VOLUME { i := n; }
  }

  lemma WithVolumeExact(vs: seq<Volume>, secret: string)
    ensures VolumesWith(vs, secret, WithVolume(vs, secret))
  {
    var names := seq(|vs|, k requires 0 <= k < |vs| => vs[k].name);
    var i := FirstNamed(names, |names|);
    assert forall k | 0 <= k < |vs| :: names[k] == vs[k].name;
    WithVolumeAt(vs, secret, i);
  }

  lemma WithMountExact(ms: seq<VolumeMount>)
    ensures MountsWith(ms, WithMount(ms))
  {
    var names := seq(|ms|, k requires 0 <= k < |ms| => ms[k].name);
    var i := FirstNamed(names, |names|);
    assert forall k | 0 <= k < |ms| :: names[k] == ms[k].name;
    WithMountAt(ms, i);
  }

  predicate MountedInto(cs: seq<Container>, ds: seq<Container>) {
    |ds| == |cs| && forall i | 0 <= i < |cs| ::
      MountsWith(cs[i].mounts, ds[i].mounts) && ds[i] == cs[i].(mounts := ds[i].mounts)
  }

  lemma MountedExact(cs: seq<Container>)
    ensures MountedInto(cs, MountedContainers(cs))
  {
    forall i | 0 <= i < |cs| ensures MountsWith(cs[i].mounts, MountedContainers(cs)[i].mounts) {
      WithMountExact(cs[i].mounts);
    }
  }

  /** Injection adds the Secret's volume and a read-only mount of it in every container, and changes
      nothing else. */
  lemma InjectionAddsOnly(s: JobSpec, secret: string)
    requires secret != ""
    ensures var r := Injected(s, secret);
            && VolumesWith(s.volumes, secret, r.volumes)
            && MountedInto(s.initContainers, r.initContainers) && MountedInto(s.containers, r.containers)
            && r == s.(volumes := r.volumes, initContainers := r.initContainers, containers := r.containers)
  {
    WithVolumeExact(s.volumes, secret);
    MountedExact(s.initContainers);
    MountedExact(s.containers);
  }

  /** Injecting the Secret leaves a hardened template hardened, and every container can read it. */
  lemma InjectionKeepsHardening(s: JobSpec, secret: string)
    requires Hardened(s)
    ensures Hardened(Injected(s, secret))
    ensures secret != "" ==> MountsSecret(Injected(s, secret), secret)
  {
    if secret != "" {
      WithVolumeHolds(s.volumes, secret);
      MountedHardened(s.initContainers);
      MountedHardened(s.containers);
    }
  }

  lemma MountedHardened(cs: seq<Container>)
    requires forall c | c in cs :: HardenedContainer(c)
    ensures forall c | c in MountedContainers(cs) :: HardenedContainer(c) && SECRET_MOUNT in c.mounts
  {
    forall c | c in MountedContainers(cs) ensures HardenedContainer(c) && SECRET_MOUNT in c.mounts {
      var i :| 0 <= i < |cs| && MountedContainers(cs)[i] == c;
      assert cs[i] in cs;
      WithMountHolds(cs[i].mounts);
    }
  }

  /** The Job spec the scheduler and the webhook change in place. `fixed` holds the fields that
      neither of them writes. */
  class JobSpecObject {
    const fixed: JobSpec
    var ttl: Option<int>
    var automountToken: Option<bool>
    var enableServiceLinks: Option<bool>
    var podSecurity: Option<PodSecurity>
    var volumes: seq<Volume>
    var initContainers: seq<Container>
    var containers: seq<Container>

    ghost function View(): JobSpec
      reads this
    {
      fixed.(ttl := ttl, automountToken := automountToken, enableServiceLinks := enableServiceLinks,
             podSecurity := podSecurity, volumes := volumes, initContainers := initContainers, containers := containers)
    }

    constructor (template: JobSpec)
      ensures View() == template
    {
      fixed := template;
      ttl := template.ttl;
      automountToken := template.automountToken;
      enableServiceLinks := template.enableServiceLinks;
      podSecurity := template.podSecurity;
      volumes := template.volumes;
      initContainers := template.initContainers;
      containers := template.containers;
    }

    /** A copy of the object as a value. */
    method Value() returns (r: JobSpec)
      ensures r == View()
    {
      r := fixed.(ttl := ttl, automountToken := automountToken, enableServiceLinks := enableServiceLinks,
                  podSecurity := podSecurity, volumes := volumes, initContainers := initContainers,
                  containers := containers);
    }

    /** `ApplyJobSecurityDefaults`: fills fields and containers in place. */
    method ApplyJobSecurityDefaults(defaultTTL: int)
      modifies this
      ensures View() == Defaulted(old(View()), defaultTTL)
    {
      ApplyPodDefaults(defaultTTL);
      for i := 0 to |initContainers|
        invariant containers == old(containers) && initContainers == DefaultedUpTo(old(initContainers), i)
        modifies this`initContainers
      {
        var c := ApplyContainerDefaults(initContainers[i]);
        initContainers := initContainers[i := c];
      }
      for i := 0 to |containers|
        invariant containers == DefaultedUpTo(old(containers), i)
        modifies this`containers
      {
        var c := ApplyContainerDefaults(containers[i]);
        containers := containers[i := c];
      }
      assert initContainers == DefaultedContainers(old(initContainers));
      assert containers == DefaultedContainers(old(containers));
    }

    /** The part of the defaults that concerns the Job and its Pod. */
    method ApplyPodDefaults(defaultTTL: int)
      modifies this`ttl, this`automountToken, this`enableServiceLinks, this`podSecurity
      ensures ttl == Or(old(ttl), defaultTTL) && automountToken == Some(false)
      ensures enableServiceLinks == Or(old(enableServiceLinks), false)
      ensures podSecurity == Some(DefaultedPod(old(podSecurity)))
    {
      if ttl.None? { ttl := Some(defaultTTL); }
      automountToken := Some(false);
      if enableServiceLinks.None? { enableServiceLinks := Some(false); }
      if podSecurity.None? { podSecurity := Some(PodSecurity(None, None, None)); }
      if podSecurity.value.seccompProfile.None? {
        podSecurity := Some(podSecurity.value.(seccompProfile := Some(RUNTIME_DEFAULT)));
      }
      if podSecurity.value.runAsNonRoot.None? {
        podSecurity := Some(podSecurity.value.(runAsNonRoot := Some(true)));
      }
    }

    /** `injectCertificateSecret`: volume first, then a mount in every container. */
    method InjectCertificateSecret(secret: string)
      modifies this
      ensures View() == Injected(old(View()), secret)
    {
      if secret == "" { return; }
      InjectVolume(secret);
      for i := 0 to |initContainers|
        invariant initContainers == MountedUpTo(old(initContainers), i)
        modifies this`initContainers
      {
        var c := EnsureVolumeMount(initContainers[i]);
        initContainers := initContainers[i := c];
      }
      for i := 0 to |containers|
        invariant containers == MountedUpTo(old(containers), i)
        modifies this`containers
      {
        var c := EnsureVolumeMount(containers[i]);
        containers := containers[i := c];
      }
      assert initContainers == MountedContainers(old(initContainers));
      assert containers == MountedContainers(old(containers));
    }

    method InjectVolume(secret: string)
      modifies this`volumes
      ensures volumes == WithVolume(old(volumes), secret)
    {
      for i := 0 to |volumes|
        invariant volumes == old(volumes) && forall k | 0 <= k < i :: volumes[k].name != SECRET_VOLUME
      {
        if volumes[i].name == SECRET_VOLUME {
          WithVolumeAt(volumes, secret, i);
          volumes := volumes[i := volumes[i].(secret := Some(secret))];
          return;
        }
      }
      WithVolumeAt(volumes, secret, |volumes|);
      volumes := volumes + [Volume(SECRET_VOLUME, false, None, Some(secret))];
    }
  }

  /** Containers during a loop: those before `n` are done. */
  ghost function DefaultedUpTo(cs: seq<Container>, n: nat): seq<Container> {
    seq(|cs|, i requires 0 <= i < |cs| => if i < n then DefaultedContainer(cs[i]) else cs[i])
  }

  ghost function MountedUpTo(cs: seq<Container>, n: nat): seq<Container> {
    seq(|cs|, i requires 0 <= i < |cs| => if i < n then cs[i].(mounts := WithMount(cs[i].mounts)) else cs[i])
  }
}
