/** Fleet health: the rule engine (services/fleet/sentigon_fleet/diagnostics.py) and the reconciliation of its
    findings with the findings table (engine.py). */
module Fleet {
  import opened Common

  // ----- The rules -----

  /** Numbers are what `_num` makes of the telemetry: None when missing or unparseable. */
  datatype Camera = Camera(id: string, status: Option<string>, lastSeen: Option<real>, targetFps: Option<real>,
                           fps: Option<real>, decodeErrors: Option<real>, reconnects: Option<real>)

  datatype Stats = Stats(device: string, inferenceMs: seq<Option<real>>)

  datatype Service = Service(name: string, up: bool, stats: Option<Stats>)

  datatype Host = Host(diskPct: Option<real>, memPct: Option<real>)

  datatype Telemetry = Telemetry(cameras: seq<Camera>, services: seq<Service>, host: Host)

  datatype Settings = Settings(staleSeconds: real, lowFpsRatio: real, diskWarn: real, memWarn: real)

  datatype Kind =
    | CameraOffline | LowFpsRate | StreamUnstable | ServiceDown
    | PerceptionCpu | HighInferenceLatency | DiskPressure | MemPressure

  datatype Key = Key(kind: Kind, target: string)

  datatype Severity = Critical | High | Medium

  datatype Finding = Finding(key: Key, severity: Severity)

  function OrZero(x: Option<real>): real {
    if x.Some? then x.value else 0.0
  }

  predicate Offline(cfg: Settings, c: Camera, now: real) {
    c.status != Some("online") || c.lastSeen.None? || now - c.lastSeen.value > cfg.staleSeconds
  }

  predicate LowFps(cfg: Settings, c: Camera) {
    OrZero(c.targetFps) > 0.0 && c.fps.Some? && c.fps.value < cfg.lowFpsRatio * OrZero(c.targetFps)
  }

  predicate Unstable(c: Camera) {
    OrZero(c.decodeErrors) > 50.0 || OrZero(c.reconnects) > 5.0
  }

  const CORE_SERVICES := {"api", "ingest", "perception", "context", "reason"}

  predicate LivePerception(s: Service) {
    s.name == "perception" && s.up
  }

  predicate SlowInference(st: Stats) {
    exists k :: 0 <= k < |st.inferenceMs| && st.inferenceMs[k].Some? && st.inferenceMs[k].value > 500.0
  }

  /** The stats of the first live perception service. */
  function PerceptionStats(services: seq<Service>): Option<Stats> {
    if services == [] then None
    else if LivePerception(services[0]) then services[0].stats
    else PerceptionStats(services[1..])
  }

  /** The camera does not report online, or was not seen for longer than allowed. */
  predicate CameraDown(cfg: Settings, c: Camera, now: real) {
    c.status != Some("online") || match c.lastSeen case Some(t) => now - t > cfg.staleSeconds case None => true
  }

  /** Which findings a camera calls for: offline alone, or its low rate and instability while it is online. */
  predicate CameraDue(cfg: Settings, c: Camera, now: real, kind: Kind) {
    match kind
    case CameraOffline => CameraDown(cfg, c, now)
    case LowFpsRate =>
      && !CameraDown(cfg, c, now) && c.targetFps.Some? && c.targetFps.value > 0.0
      && c.fps.Some? && c.fps.value < cfg.lowFpsRatio * c.targetFps.value
    case StreamUnstable =>
      && !CameraDown(cfg, c, now)
      && ((c.decodeErrors.Some? && c.decodeErrors.value > 50.0) || (c.reconnects.Some? && c.reconnects.value > 5.0))
    case _ => false
  }

  /** Services[i] is the perception service whose statistics count: the first that is up. */
  predicate FirstLive(services: seq<Service>, i: int) {
    && 0 <= i < |services| && services[i].name == "perception" && services[i].up
    && forall j :: 0 <= j < i ==> !(services[j].name == "perception" && services[j].up)
  }

  /** Which findings a telemetry snapshot calls for. */
  predicate Due(cfg: Settings, t: Telemetry, now: real, key: Key) {
    match key.kind
    case CameraOffline | LowFpsRate | StreamUnstable =>
      exists c :: c in t.cameras && c.id == key.target && CameraDue(cfg, c, now, key.kind)
    case ServiceDown => exists s :: s in t.services && s.name == key.target && !s.up
    case PerceptionCpu =>
      && key.target == "perception"
      && exists i :: 0 <= i < |t.services| && FirstLive(t.services, i) && t.services[i].stats.Some?
                     && t.services[i].stats.value.device == "cpu"
    case HighInferenceLatency =>
      && key.target == "perception"
      && exists i, k :: && 0 <= i < |t.services| && FirstLive(t.services, i) && t.services[i].stats.Some?
                        && 0 <= k < |t.services[i].stats.value.inferenceMs|
                        && t.services[i].stats.value.inferenceMs[k].Some?
                        && t.services[i].stats.value.inferenceMs[k].value > 500.0
    case DiskPressure => key.target == "host" && t.host.diskPct.Some? && t.host.diskPct.value >= cfg.diskWarn
    case MemPressure => key.target == "host" && t.host.memPct.Some? && t.host.memPct.value >= cfg.memWarn
  }

  /** How severe a finding is that a snapshot calls for. */
  function SeverityDue(t: Telemetry, key: Key): Severity {
    match key.kind
    case CameraOffline => High
    case ServiceDown => if key.target in ["api", "ingest", "perception", "context", "reason"] then Critical else High
    case DiskPressure => if t.host.diskPct.Some? && t.host.diskPct.value >= 95.0 then Critical else High
    case _ => Medium
  }

  predicate OfCameraKind(kind: Kind) {
    kind.CameraOffline? || kind.LowFpsRate? || kind.StreamUnstable?
  }

  predicate OfHostKind(kind: Kind) {
    kind.DiskPressure? || kind.MemPressure?
  }

  predicate HasKey(fs: seq<Finding>, key: Key) {
    exists i :: 0 <= i < |fs| && fs[i].key == key
  }

  ghost predicate DistinctKeys(fs: seq<Finding>) {
    forall i, j :: 0 <= i < j < |fs| ==> fs[i].key != fs[j].key
  }

  ghost predicate DistinctIds(cameras: seq<Camera>) {
    forall i, j :: 0 <= i < j < |cameras| ==> cameras[i].id != cameras[j].id
  }

  ghost predicate DistinctNames(services: seq<Service>) {
    forall i, j :: 0 <= i < j < |services| ==> services[i].name != services[j].name
  }

  // ----- The rules' result lists, in order -----

  function OfCamera(cfg: Settings, c: Camera, now: real): seq<Finding> {
    if Offline(cfg, c, now) then [Finding(Key(CameraOffline, c.id), High)] else
      (if LowFps(cfg, c) then [Finding(Key(LowFpsRate, c.id), Medium)] else [])
      + (if Unstable(c) then [Finding(Key(StreamUnstable, c.id), Medium)] else [])
  }

  function OfCameras(cfg: Settings, cameras: seq<Camera>, now: real): seq<Finding> {
    if cameras == [] then []
    else OfCameras(cfg, cameras[..|cameras| - 1], now) + OfCamera(cfg, cameras[|cameras| - 1], now)
  }

  function OfService(s: Service): seq<Finding> {
    if s.up then [] else [Finding(Key(ServiceDown, s.name), if s.name in CORE_SERVICES then Critical else High)]
  }

  function OfServices(services: seq<Service>): seq<Finding> {
    if services == [] then [] else OfServices(services[..|services| - 1]) + OfService(services[|services| - 1])
  }

  function OfPerception(st: Option<Stats>): seq<Finding> {
    if st.None? then [] else
      (if st.value.device == "cpu" then [Finding(Key(PerceptionCpu, "perception"), Medium)] else [])
      + (if SlowInference(st.value) then [Finding(Key(HighInferenceLatency, "perception"), Medium)] else [])
  }

  function OfHost(cfg: Settings, h: Host): seq<Finding> {
    (if h.diskPct.Some? && h.diskPct.value >= cfg.diskWarn
     then [Finding(Key(DiskPressure, "host"), if h.diskPct.value >= 95.0 then Critical else High)] else [])
    + (if h.memPct.Some? && h.memPct.value >= cfg.memWarn then [Finding(Key(MemPressure, "host"), Medium)] else [])
  }

  function Findings(cfg: Settings, t: Telemetry, now: real): seq<Finding> {
    OfCameras(cfg, t.cameras, now) + OfServices(t.services) + OfPerception(PerceptionStats(t.services))
        + OfHost(cfg, t.host)
  }

  lemma HasKeyConcat(a: seq<Finding>, b: seq<Finding>, key: Key)
    ensures HasKey(a + b, key) <==> HasKey(a, key) || HasKey(b, key)
  {
    if HasKey(a, key) {
      var i :| 0 <= i < |a| && a[i].key == key;
      assert (a + b)[i].key == key;
    }
    if HasKey(b, key) {
      var i :| 0 <= i < |b| && b[i].key == key;
      assert (a + b)[|a| + i].key == key;
    }
  }

  lemma DistinctConcat(a: seq<Finding>, b: seq<Finding>)
    requires DistinctKeys(a) && DistinctKeys(b)
    requires forall i, j :: 0 <= i < |a| && 0 <= j < |b| ==> a[i].key != b[j].key
    ensures DistinctKeys(a + b)
  {
  }

  lemma OfCameraKeys(cfg: Settings, c: Camera, now: real, key: Key)
    ensures HasKey(OfCamera(cfg, c, now), key) <==>
            c.id == key.target && CameraDue(cfg, c, now, key.kind)
  {
    var fs := OfCamera(cfg, c, now);
    assert |fs| > 0 ==> HasKey(fs, fs[0].key);
    assert |fs| > 1 ==> HasKey(fs, fs[1].key);
  }

  lemma NotForCameras(cfg: Settings, t: Telemetry, now: real, key: Key)
    ensures OfCameraKind(key.kind) && Due(cfg, t, now, key)
            <==> exists c :: c in t.cameras && c.id == key.target && CameraDue(cfg, c, now, key.kind)
  {
  }

  lemma {:induction false} OfCamerasKeys(cfg: Settings, t: Telemetry, now: real, key: Key)
    ensures HasKey(OfCameras(cfg, t.cameras, now), key) <==>
            OfCameraKind(key.kind) && Due(cfg, t, now, key)
    decreases |t.cameras|
  {
    hide CameraDue, OfCamera;
    NotForCameras(cfg, t, now, key);
    if t.cameras != [] {
      var front, c := t.cameras[..|t.cameras| - 1], t.cameras[|t.cameras| - 1];
      OfCamerasKeys(cfg, t.(cameras := front), now, key);
      OfCameraKeys(cfg, c, now, key);
      HasKeyConcat(OfCameras(cfg, front, now), OfCamera(cfg, c, now), key);
      assert t.cameras == front + [c];
      assert forall d :: d in t.cameras <==> d in front || d == c;
    }
  }

  lemma {:induction false} OfServicesKeys(services: seq<Service>, key: Key)
    ensures HasKey(OfServices(services), key)
            <==> key.kind.ServiceDown? && exists s :: s in services && s.name == key.target && !s.up
  {
    if services != [] {
      var front, s := services[..|services| - 1], services[|services| - 1];
      OfServicesKeys(front, key);
      HasKeyConcat(OfServices(front), OfService(s), key);
      assert !s.up ==> OfService(s)[0].key == Key(ServiceDown, s.name);
      assert services == front + [s];
      assert forall d :: d in services <==> d in front || d == s;
    }
  }

  /** The statistics used are those of the first live perception service. */
  lemma {:induction false} StatsOfFirstLive(services: seq<Service>)
    ensures forall i :: FirstLive(services, i) ==> PerceptionStats(services) == services[i].stats
    ensures (forall i :: 0 <= i < |services| ==> !FirstLive(services, i)) ==> PerceptionStats(services).None?
  {
    if services != [] {
      if LivePerception(services[0]) {
        assert FirstLive(services, 0);
      } else {
        StatsOfFirstLive(services[1..]);
        forall i ensures FirstLive(services, i) <==> 1 <= i && FirstLive(services[1..], i - 1) {
          FirstLiveRest(services, i);
        }
        if forall i :: 0 <= i < |services| ==> !FirstLive(services, i) {
          forall i | 0 <= i < |services[1..]| ensures !FirstLive(services[1..], i) {
            FirstLiveRest(services, i + 1);
          }
        }
      }
    }
  }

  lemma FirstLiveRest(services: seq<Service>, i: int)
    requires services != [] && !LivePerception(services[0])
    ensures FirstLive(services, i) <==> 1 <= i && FirstLive(services[1..], i - 1)
  {
    if 1 <= i && FirstLive(services[1..], i - 1) {
      forall j | 0 <= j < i ensures !(services[j].name == "perception" && services[j].up) {
        assert j >= 1 ==> services[j] == services[1..][j - 1];
      }
    }
    if FirstLive(services, i) && i >= 1 {
      assert forall j :: 0 <= j < i - 1 ==> services[1..][j] == services[j + 1];
    }
  }

  lemma SingleKeys(cfg: Settings, t: Telemetry, now: real, key: Key)
    ensures HasKey(OfPerception(PerceptionStats(t.services)), key) <==>
            (key.kind.PerceptionCpu? || key.kind.HighInferenceLatency?) && Due(cfg, t, now, key)
    ensures HasKey(OfHost(cfg, t.host), key) <==> OfHostKind(key.kind) && Due(cfg, t, now, key)
  {
    hide PerceptionStats, FirstLive;
    StatsOfFirstLive(t.services);
    var p, h := OfPerception(PerceptionStats(t.services)), OfHost(cfg, t.host);
    assert |p| > 0 ==> HasKey(p, p[0].key);
    assert |p| > 1 ==> HasKey(p, p[1].key);
    assert |h| > 0 ==> HasKey(h, h[0].key);
    assert |h| > 1 ==> HasKey(h, h[1].key);
  }

  /** The rule engine raises exactly the findings the snapshot calls for. */
  lemma FindingsExact(cfg: Settings, t: Telemetry, now: real, key: Key)
    ensures HasKey(Findings(cfg, t, now), key) <==> Due(cfg, t, now, key)
  {
    var a, b, c, d := OfCameras(cfg, t.cameras, now), OfServices(t.services),
        OfPerception(PerceptionStats(t.services)), OfHost(cfg, t.host);
    OfCamerasKeys(cfg, t, now, key);
    OfServicesKeys(t.services, key);
    SingleKeys(cfg, t, now, key);
    HasKeyConcat(a, b, key);
    HasKeyConcat(a + b, c, key);
    HasKeyConcat(a + b + c, d, key);
  }

  /** Every finding is as severe as the snapshot calls for. */
  ghost predicate RightlySevere(t: Telemetry, fs: seq<Finding>) {
    forall i :: 0 <= i < |fs| ==> fs[i].severity == SeverityDue(t, fs[i].key)
  }

  lemma SevereConcat(t: Telemetry, a: seq<Finding>, b: seq<Finding>)
    requires RightlySevere(t, a) && RightlySevere(t, b)
    ensures RightlySevere(t, a + b)
  {
  }

  lemma {:induction false} OfCamerasSevere(cfg: Settings, t: Telemetry, cameras: seq<Camera>, now: real)
    ensures RightlySevere(t, OfCameras(cfg, cameras, now))
  {
    hide Offline, LowFps, Unstable;
    if cameras != [] {
      OfCamerasSevere(cfg, t, cameras[..|cameras| - 1], now);
    }
  }

  lemma {:induction false} OfServicesSevere(t: Telemetry, services: seq<Service>)
    ensures RightlySevere(t, OfServices(services))
  {
    if services != [] {
      OfServicesSevere(t, services[..|services| - 1]);
    }
  }

  lemma SinglesSevere(cfg: Settings, t: Telemetry, st: Option<Stats>)
    ensures RightlySevere(t, OfPerception(st)) && RightlySevere(t, OfHost(cfg, t.host))
  {
    hide SlowInference;
  }

  lemma FindingsSevere(cfg: Settings, t: Telemetry, now: real)
    ensures RightlySevere(t, Findings(cfg, t, now))
  {
    hide PerceptionStats;
    var a, b, c, d := OfCameras(cfg, t.cameras, now), OfServices(t.services),
        OfPerception(PerceptionStats(t.services)), OfHost(cfg, t.host);
    OfCamerasSevere(cfg, t, t.cameras, now);
    OfServicesSevere(t, t.services);
    SinglesSevere(cfg, t, PerceptionStats(t.services));
    hide RightlySevere, OfPerception, OfHost, OfCameras, OfServices;
    SevereConcat(t, a, b);
    SevereConcat(t, a + b, c);
    SevereConcat(t, a + b + c, d);
  }

  lemma OfCameraDistinct(cfg: Settings, c: Camera, now: real)
    ensures DistinctKeys(OfCamera(cfg, c, now))
    ensures forall i :: 0 <= i < |OfCamera(cfg, c, now)| ==>
              var key := OfCamera(cfg, c, now)[i].key;
              OfCameraKind(key.kind) && key.target == c.id
  {
    hide Offline, LowFps, Unstable;
  }

  lemma {:induction false} OfCamerasDistinct(cfg: Settings, cameras: seq<Camera>, now: real)
    requires DistinctIds(cameras)
    ensures DistinctKeys(OfCameras(cfg, cameras, now))
    ensures forall i :: 0 <= i < |OfCameras(cfg, cameras, now)| ==>
              var key := OfCameras(cfg, cameras, now)[i].key;
              && OfCameraKind(key.kind)
              && exists c :: c in cameras && c.id == key.target
    decreases |cameras|
  {
    hide OfCamera;
    if cameras != [] {
      var front, c := cameras[..|cameras| - 1], cameras[|cameras| - 1];
      OfCamerasDistinct(cfg, front, now);
      OfCameraDistinct(cfg, c, now);
      assert forall d :: d in cameras <==> d in front || d == c by { assert cameras == front + [c]; }
      assert forall d :: d in front ==> d.id != c.id;
      DistinctConcat(OfCameras(cfg, front, now), OfCamera(cfg, c, now));
    }
  }

  lemma {:induction false} OfServicesDistinct(services: seq<Service>)
    requires DistinctNames(services)
    ensures DistinctKeys(OfServices(services))
    ensures forall i :: 0 <= i < |OfServices(services)| ==>
              var key := OfServices(services)[i].key;
              key.kind.ServiceDown? && exists s :: s in services && s.name == key.target
    decreases |services|
  {
    if services != [] {
      var front, s := services[..|services| - 1], services[|services| - 1];
      OfServicesDistinct(front);
      assert forall d :: d in services <==> d in front || d == s by { assert services == front + [s]; }
      assert forall d :: d in front ==> d.name != s.name;
      DistinctConcat(OfServices(front), OfService(s));
    }
  }

  lemma SinglesDistinct(cfg: Settings, st: Option<Stats>, h: Host)
    ensures DistinctKeys(OfPerception(st) + OfHost(cfg, h))
    ensures forall i :: 0 <= i < |OfPerception(st) + OfHost(cfg, h)| ==>
              var kind := (OfPerception(st) + OfHost(cfg, h))[i].key.kind;
              kind.PerceptionCpu? || kind.HighInferenceLatency? || kind.DiskPressure? || kind.MemPressure?
  {
    hide SlowInference;
    DistinctConcat(OfPerception(st), OfHost(cfg, h));
  }

  /** With distinct camera ids and service names no key is raised twice. */
  lemma FindingsDistinct(cfg: Settings, t: Telemetry, now: real)
    requires DistinctIds(t.cameras) && DistinctNames(t.services)
    ensures DistinctKeys(Findings(cfg, t, now))
  {
    hide OfCameras, OfServices, OfPerception, OfHost, PerceptionStats;
    var a, b, c, d := OfCameras(cfg, t.cameras, now), OfServices(t.services),
        OfPerception(PerceptionStats(t.services)), OfHost(cfg, t.host);
    OfCamerasDistinct(cfg, t.cameras, now);
    OfServicesDistinct(t.services);
    SinglesDistinct(cfg, PerceptionStats(t.services), t.host);
    DistinctConcat(a, b);
    DistinctConcat(a + b, c + d);
    assert a + b + c + d == a + b + (c + d);
  }

  // ----- The rules as code -----

  function OnlyCameras(cameras: seq<Camera>): Telemetry {
    Telemetry(cameras, [], Host(None, None))
  }

  lemma OnlyCamerasKeys(cfg: Settings, cameras: seq<Camera>, now: real)
    ensures var fs, t := OfCameras(cfg, cameras, now), OnlyCameras(cameras);
            forall key :: HasKey(fs, key) <==> OfCameraKind(key.kind) && Due(cfg, t, now, key)
  {
    hide Due, HasKey;
    var fs, t := OfCameras(cfg, cameras, now), OnlyCameras(cameras);
    forall key ensures HasKey(fs, key) <==> OfCameraKind(key.kind) && Due(cfg, t, now, key) {
      OfCamerasKeys(cfg, t, now, key);
    }
  }

  lemma OfNoCameras(cfg: Settings, cameras: seq<Camera>, now: real)
    requires cameras == []
    ensures OfCameras(cfg, cameras, now) == []
  {
  }

  lemma OfCamerasSnoc(cfg: Settings, cameras: seq<Camera>, i: nat, now: real)
    requires i < |cameras|
    ensures OfCameras(cfg, cameras[..i + 1], now) == OfCameras(cfg, cameras[..i], now) + OfCamera(cfg, cameras[i], now)
  {
    hide OfCamera;
    assert cameras[..i + 1][..i] == cameras[..i];
  }

  method EvalCameras(cfg: Settings, cameras: seq<Camera>, now: real) returns (fs: seq<Finding>)
    ensures fs == OfCameras(cfg, cameras, now)
    ensures forall key :: HasKey(fs, key) <==> OfCameraKind(key.kind) && Due(cfg, OnlyCameras(cameras), now, key)
  {
    hide Due, HasKey, OfCameras;
    OfNoCameras(cfg, cameras[..0], now);
    fs := [];
    for i := 0 to |cameras|
      invariant fs == OfCameras(cfg, cameras[..i], now)
    {
      var c := cameras[i];
      OfCamerasSnoc(cfg, cameras, i, now);
      ghost var before := fs;
      var stale := c.lastSeen.None? || now - c.lastSeen.value > cfg.staleSeconds;
      if c.status != Some("online") || stale {
        fs := fs + [Finding(Key(CameraOffline, c.id), High)];
        continue;
      }
      var targetFps := OrZero(c.targetFps);
      if targetFps > 0.0 && c.fps.Some? && c.fps.value < cfg.lowFpsRatio * targetFps {
        fs := fs + [Finding(Key(LowFpsRate, c.id), Medium)];
      }
      if OrZero(c.decodeErrors) > 50.0 || OrZero(c.reconnects) > 5.0 {
        fs := fs + [Finding(Key(StreamUnstable, c.id), Medium)];
      }
      assert fs == before + OfCamera(cfg, c, now);
    }
    assert cameras[..|cameras|] == cameras;
    OnlyCamerasKeys(cfg, cameras, now);
  }

  method EvalServices(services: seq<Service>) returns (fs: seq<Finding>)
    ensures fs == OfServices(services)
    ensures forall key :: HasKey(fs, key) <==>
              key.kind.ServiceDown? && exists s :: s in services && s.name == key.target && !s.up
  {
    fs := [];
    for i := 0 to |services|
      invariant fs == OfServices(services[..i])
    {
      assert services[..i + 1][..i] == services[..i];
      var s := services[i];
      if s.up {
        continue;
      }
      var core := s.name in CORE_SERVICES;
      fs := fs + [Finding(Key(ServiceDown, s.name), if core then Critical else High)];
    }
    assert services[..|services|] == services;
    forall key
      ensures HasKey(fs, key)
              <==> key.kind.ServiceDown? && exists s :: s in services && s.name == key.target && !s.up
    {
      OfServicesKeys(services, key);
    }
  }

  method EvalPerception(services: seq<Service>) returns (fs: seq<Finding>)
    ensures fs == OfPerception(PerceptionStats(services))
  {
    fs := [];
    var i := 0;
    while i < |services| && !LivePerception(services[i])
      invariant 0 <= i <= |services|
      invariant PerceptionStats(services) == PerceptionStats(services[i..])
    {
      i := i + 1;
    }
    if i == |services| || services[i].stats.None? {
      return;
    }
    var st := services[i].stats.value;
    if st.device == "cpu" {
      fs := fs + [Finding(Key(PerceptionCpu, "perception"), Medium)];
    }
    var worst: Option<real> := None;
    for k := 0 to |st.inferenceMs|
      invariant worst.None? ==> forall l :: 0 <= l < k ==> st.inferenceMs[l].None?
      invariant worst.Some? ==>
                  && (exists l :: 0 <= l < k && st.inferenceMs[l] == worst)
                  && (forall l :: 0 <= l < k && st.inferenceMs[l].Some? ==> st.inferenceMs[l].value <= worst.value)
    {
      var infer := st.inferenceMs[k];
      if infer.Some? && (worst.None? || infer.value > worst.value) {
        worst := infer;
      }
    }
    if worst.Some? && worst.value > 500.0 {
      fs := fs + [Finding(Key(HighInferenceLatency, "perception"), Medium)];
    }
  }

  method EvalHost(cfg: Settings, h: Host) returns (fs: seq<Finding>)
    ensures fs == OfHost(cfg, h)
    ensures forall key :: HasKey(fs, key) <==> OfHostKind(key.kind) && Due(cfg, Telemetry([], [], h), 0.0, key)
    ensures DistinctKeys(fs)
    ensures forall i :: 0 <= i < |fs| ==>
              var critical := fs[i].key.kind.DiskPressure? && h.diskPct.Some? && h.diskPct.value >= 95.0;
              fs[i].severity == Critical <==> critical
  {
    fs := [];
    if h.diskPct.Some? && h.diskPct.value >= cfg.diskWarn {
      fs := fs + [Finding(Key(DiskPressure, "host"), if h.diskPct.value >= 95.0 then Critical else High)];
    }
    if h.memPct.Some? && h.memPct.value >= cfg.memWarn {
      fs := fs + [Finding(Key(MemPressure, "host"), Medium)];
    }
    assert fs == OfHost(cfg, h);
    forall key ensures HasKey(fs, key) <==> OfHostKind(key.kind) && Due(cfg, Telemetry([], [], h), 0.0, key) {
      SingleKeys(cfg, Telemetry([], [], h), 0.0, key);
    }
  }

  method Evaluate(cfg: Settings, t: Telemetry, now: real) returns (fs: seq<Finding>)
    ensures fs == Findings(cfg, t, now)
    ensures forall key :: HasKey(fs, key) <==> Due(cfg, t, now, key)
    ensures forall i :: 0 <= i < |fs| ==> fs[i].severity == SeverityDue(t, fs[i].key)
    ensures DistinctIds(t.cameras) && DistinctNames(t.services) ==> DistinctKeys(fs)
  {
    fs := EvalCameras(cfg, t.cameras, now);
    var more := EvalServices(t.services);
    fs := fs + more;
    more := EvalPerception(t.services);
    fs := fs + more;
    more := EvalHost(cfg, t.host);
    fs := fs + more;
    FindingsSevere(cfg, t, now);
    forall key ensures HasKey(fs, key) <==> Due(cfg, t, now, key) {
      FindingsExact(cfg, t, now, key);
    }
    if DistinctIds(t.cameras) && DistinctNames(t.services) {
      FindingsDistinct(cfg, t, now);
    }
  }

  // ----- Reconciliation -----

  datatype Row = Row(key: Key, severity: Severity, active: bool, firstSeen: real, lastSeen: real,
      resolvedAt: Option<real>)

  /** `by_key` of the active rows: of rows with one key the last. */
  function ActiveIndex(table: seq<Row>, key: Key): (found: Option<nat>)
    ensures found.Some? ==> found.value < |table| && table[found.value].active && table[found.value].key == key
    ensures forall k :: (if found.Some? then found.value + 1 else 0) <= k < |table|
              ==> !(table[k].active && table[k].key == key)
  {
    if table == [] then None
    else if table[|table| - 1].active && table[|table| - 1].key == key then Some(|table| - 1)
    else ActiveIndex(table[..|table| - 1], key)
  }

  function Refreshed(r: Row, f: Finding, now: real): Row {
    r.(severity := f.severity, lastSeen := now, active := true, resolvedAt := None)
  }

  function Raised(f: Finding, now: real): Row {
    Row(f.key, f.severity, true, now, now, None)
  }

  function Cleared(r: Row, now: real): Row {
    r.(active := false, resolvedAt := Some(now))
  }

  /** The first loop over the first n produced findings: update the row `by_key` knows, or add one. */
  function Upserted(table: seq<Row>, produced: seq<Finding>, now: real, n: nat): (t: seq<Row>)
    requires n <= |produced|
    ensures |t| >= |table|
  {
    if n == 0 then table else
      var t := Upserted(table, produced, now, n - 1);
      var f := produced[n - 1];
      match ActiveIndex(table, f.key)
      case Some(i) => t[i := Refreshed(t[i], f, now)]
      case None => t + [Raised(f, now)]
  }

  /** The second loop: the rows in `by_key` whose key was not produced are resolved. */
  function Resolved(before: seq<Row>, t: seq<Row>, produced: seq<Finding>, now: real): (r: seq<Row>)
    requires |before| <= |t|
    ensures |r| == |t|
  {
    seq(|t|, i requires 0 <= i < |t| =>
      if i < |before| && ActiveIndex(before, before[i].key) == Some(i) && !HasKey(produced, before[i].key)
      then Cleared(t[i], now)
      else t[i])
  }

  function Reconciled(table: seq<Row>, produced: seq<Finding>, now: real): seq<Row> {
    Resolved(table, Upserted(table, produced, now, |produced|), produced, now)
  }

  lemma NoKeys(produced: seq<Finding>)
    requires produced == []
    ensures forall key :: !HasKey(produced, key)
  {
  }

  lemma HasKeySnoc(produced: seq<Finding>, n: nat)
    requires n < |produced|
    ensures forall key :: HasKey(produced[..n + 1], key) <==> HasKey(produced[..n], key) || key == produced[n].key
  {
    assert produced[..n + 1] == produced[..n] + [produced[n]];
    forall key ensures HasKey(produced[..n + 1], key) <==> HasKey(produced[..n], key) || key == produced[n].key {
      HasKeyConcat(produced[..n], [produced[n]], key);
      assert [produced[n]][0] == produced[n];
    }
  }

  ghost predicate IsIndex(byKey: map<Key, nat>, table: seq<Row>) {
    forall key :: ActiveIndex(table, key) == if key in byKey then Some(byKey[key]) else None
  }

  class FleetEngine {
    const cfg: Settings
    var table: seq<Row>

    constructor (cfg: Settings)
      ensures this.cfg == cfg && table == []
    {
      this.cfg := cfg;
      table := [];
    }

    /** `by_key`: the active rows by key. */
    method IndexActive() returns (byKey: map<Key, nat>)
      ensures IsIndex(byKey, table)
    {
      byKey := map[];
      for i := 0 to |table|
        invariant IsIndex(byKey, table[..i])
      {
        assert table[..i + 1][..i] == table[..i];
        if table[i].active {
          byKey := byKey[table[i].key := i];
        }
      }
      assert table[..|table|] == table;
    }

    method Upsert(byKey: map<Key, nat>, produced: seq<Finding>, now: real) returns (producedKeys: set<Key>)
      requires IsIndex(byKey, table)
      modifies this
      ensures table == Upserted(old(table), produced, now, |produced|)
      ensures forall key :: key in producedKeys <==> HasKey(produced, key)
    {
      hide HasKey, ActiveIndex;
      ghost var before := table;
      producedKeys := {};
      NoKeys(produced[..0]);
      for n := 0 to |produced|
        invariant table == Upserted(before, produced, now, n)
        invariant forall key :: key in producedKeys <==> HasKey(produced[..n], key)
      {
        var f := produced[n];
        HasKeySnoc(produced, n);
        producedKeys := producedKeys + {f.key};
        if f.key in byKey {
          var i := byKey[f.key];
          var current := table[i];
          table := table[i := current.(severity := f.severity, lastSeen := now, active := true, resolvedAt := None)];
        } else {
          table := table + [Row(f.key, f.severity, true, now, now, None)];
        }
      }
      assert produced[..|produced|] == produced;
    }

    method ResolveCleared(byKey: map<Key, nat>, ghost before: seq<Row>, ghost produced: seq<Finding>,
                          producedKeys: set<Key>, now: real)
      requires IsIndex(byKey, before) && |before| <= |table|
      requires forall key :: key in producedKeys <==> HasKey(produced, key)
      modifies this
      ensures table == Resolved(before, old(table), produced, now)
    {
      ghost var mid := table;
      var todo := byKey.Keys;
      while todo != {}
        invariant |table| == |mid|
        invariant forall k :: 0 <= k < |mid| ==>
                    table[k] == if k < |before| && before[k].key in byKey.Keys - todo && byKey[before[k].key] == k
                                   && before[k].key !in producedKeys
                                then Cleared(mid[k], now) else mid[k]
        decreases todo
      {
        var key :| key in todo;
        if key !in producedKeys {
          var i := byKey[key];
          table := table[i := table[i].(active := false, resolvedAt := Some(now))];
        }
        todo := todo - {key};
      }
      assert table == Resolved(before, mid, produced, now);
    }

    method ReconcileFindings(produced: seq<Finding>, now: real)
      modifies this
      ensures table == Reconciled(old(table), produced, now)
    {
      ghost var before := table;
      var byKey := IndexActive();
      var producedKeys := Upsert(byKey, produced, now);
      ResolveCleared(byKey, before, produced, producedKeys, now);
    }

    /** One committed tick on a telemetry snapshot; the rules read the clock before the reconciliation does. */
    method Tick(t: Telemetry, evaluatedAt: real, now: real)
      modifies this
      ensures table == Reconciled(old(table), Findings(cfg, t, evaluatedAt), now)
    {
      var findings := Evaluate(cfg, t, evaluatedAt);
      ReconcileFindings(findings, now);
    }
  }

  // ----- What every run of ticks guarantees -----

  /** A committed tick: what the rules produced and when. */
  datatype Tick = Tick(produced: seq<Finding>, now: real)

  function TableAt(ticks: seq<Tick>, n: nat): seq<Row>
    requires n <= |ticks|
  {
    if n == 0 then [] else Reconciled(TableAt(ticks, n - 1), ticks[n - 1].produced, ticks[n - 1].now)
  }

  /** The tick that began the unbroken run of ticks, ending with tick i, that produced the key. */
  function RunStart(ticks: seq<Tick>, i: nat, key: Key): (s: nat)
    requires i < |ticks| && HasKey(ticks[i].produced, key)
    ensures s <= i && HasKey(ticks[s].produced, key)
    ensures forall k :: s <= k <= i ==> HasKey(ticks[k].produced, key)
    ensures s > 0 ==> !HasKey(ticks[s - 1].produced, key)
  {
    if i > 0 && HasKey(ticks[i - 1].produced, key) then RunStart(ticks, i - 1, key) else i
  }

  ghost predicate DistinctActive(table: seq<Row>) {
    forall i, j :: 0 <= i < j < |table| && table[i].active && table[j].active ==> table[i].key != table[j].key
  }

  predicate ActiveKey(table: seq<Row>, key: Key) {
    ActiveIndex(table, key).Some?
  }

  /** A row that is active from now on because its key was produced now. */
  predicate FreshRow(r: Row, firstSeen: real, now: real) {
    r.active && r.firstSeen == firstSeen && r.lastSeen == now && r.resolvedAt.None?
  }

  /** What the first n findings make of the rows that were there. */
  ghost predicate OldRowsOk(table: seq<Row>, produced: seq<Finding>, now: real, n: nat, t: seq<Row>)
    requires n <= |produced|
  {
    && |t| >= |table|
    && forall i :: 0 <= i < |table| ==>
         if table[i].active && HasKey(produced[..n], table[i].key)
         then FreshRow(t[i], table[i].firstSeen, now) && t[i].key == table[i].key
         else t[i] == table[i]
  }

  /** The rows they add: one for each finding without an active row. */
  ghost predicate NewRowsOk(table: seq<Row>, produced: seq<Finding>, now: real, n: nat, t: seq<Row>)
    requires n <= |produced|
  {
    && |t| >= |table|
    && (forall i :: |table| <= i < |t| ==>
          FreshRow(t[i], now, now) && HasKey(produced[..n], t[i].key) && !ActiveKey(table, t[i].key))
    && (forall i, j :: |table| <= i < j < |t| ==> t[i].key != t[j].key)
  }

  ghost predicate NewRowsComplete(table: seq<Row>, produced: seq<Finding>, n: nat, t: seq<Row>)
    requires n <= |produced|
  {
    forall key :: HasKey(produced[..n], key) && !ActiveKey(table, key)
        ==> exists i :: |table| <= i < |t| && t[i].key == key
  }

  lemma {:induction false} UpsertedOldRows(table: seq<Row>, produced: seq<Finding>, now: real, n: nat)
    requires n <= |produced| && DistinctActive(table)
    ensures OldRowsOk(table, produced, now, n, Upserted(table, produced, now, n))
  {
    if n > 0 {
      UpsertedOldRows(table, produced, now, n - 1);
      HasKeySnoc(produced, n - 1);
    }
  }

  lemma {:induction false} UpsertedNewRows(table: seq<Row>, produced: seq<Finding>, now: real, n: nat)
    requires n <= |produced| && DistinctKeys(produced)
    ensures NewRowsOk(table, produced, now, n, Upserted(table, produced, now, n))
  {
    if n > 0 {
      UpsertedNewRows(table, produced, now, n - 1);
      HasKeySnoc(produced, n - 1);
      assert !HasKey(produced[..n - 1], produced[n - 1].key);
    }
  }

  lemma {:induction false} UpsertedComplete(table: seq<Row>, produced: seq<Finding>, now: real, n: nat)
    requires n <= |produced|
    ensures NewRowsComplete(table, produced, n, Upserted(table, produced, now, n))
  {
    if n > 0 {
      UpsertedComplete(table, produced, now, n - 1);
      HasKeySnoc(produced, n - 1);
      var t0, t := Upserted(table, produced, now, n - 1), Upserted(table, produced, now, n);
      forall key | HasKey(produced[..n], key) && !ActiveKey(table, key)
        ensures exists i :: |table| <= i < |t| && t[i].key == key
      {
        if HasKey(produced[..n - 1], key) {
          var i :| |table| <= i < |t0| && t0[i].key == key;
          assert t[i].key == key;
        } else {
          assert t[|t0|].key == key;
        }
      }
    }
  }

  /** One of the first n findings has the row's key and severity. */
  predicate Carries(produced: seq<Finding>, n: nat, r: Row)
    requires n <= |produced|
  {
    exists k :: 0 <= k < n && produced[k].key == r.key && produced[k].severity == r.severity
  }

  lemma CarriesMore(produced: seq<Finding>, n: nat, r: Row)
    requires n < |produced|
    ensures Carries(produced, n, r) ==> Carries(produced, n + 1, r)
    ensures r.key == produced[n].key && r.severity == produced[n].severity ==> Carries(produced, n + 1, r)
  {
  }

  lemma {:induction false} UpsertedSeverity(table: seq<Row>, produced: seq<Finding>, now: real, n: nat, i: nat)
    requires n <= |produced| && DistinctActive(table) && i < |Upserted(table, produced, now, n)|
    requires i < |table| ==> table[i].active && HasKey(produced[..n], table[i].key)
    ensures Carries(produced, n, Upserted(table, produced, now, n)[i])
  {
    hide Carries;
    if n > 0 {
      var t := Upserted(table, produced, now, n - 1);
      HasKeySnoc(produced, n - 1);
      if i < |t| {
        CarriesMore(produced, n - 1, t[i]);
        if i >= |table| || HasKey(produced[..n - 1], table[i].key) {
          UpsertedSeverity(table, produced, now, n - 1, i);
        }
        UpsertedOldRows(table, produced, now, n - 1);
      }
      CarriesMore(produced, n - 1, Upserted(table, produced, now, n)[i]);
    }
  }

  /** An active row is as severe as the finding that the tick produced for its key. */
  lemma ReconciledSeverity(table: seq<Row>, produced: seq<Finding>, now: real, i: nat)
    requires DistinctActive(table) && DistinctKeys(produced) && i < |Reconciled(table, produced, now)|
    requires Reconciled(table, produced, now)[i].active
    ensures Carries(produced, |produced|, Reconciled(table, produced, now)[i])
  {
    hide Carries;
    assert produced[..|produced|] == produced;
    if i < |table| {
      ReconciledOldRows(table, produced, now, i);
    }
    UpsertedSeverity(table, produced, now, |produced|, i);
  }

  /** The row says when the unbroken run of ticks that produced its key, up to tick n, began, and that it was
      seen in that tick. */
  predicate RowSince(ticks: seq<Tick>, n: nat, r: Row)
    requires 0 < n <= |ticks| && HasKey(ticks[n - 1].produced, r.key)
  {
    r.firstSeen == ticks[RunStart(ticks, n - 1, r.key)].now && r.lastSeen == ticks[n - 1].now
  }

  /** The state of the findings table after n ticks, read off their history. */
  ghost predicate TableOk(ticks: seq<Tick>, n: nat, table: seq<Row>)
    requires n <= |ticks|
  {
    && DistinctActive(table)
    && (forall key :: ActiveKey(table, key) <==> n > 0 && HasKey(ticks[n - 1].produced, key))
    && (forall i :: 0 <= i < |table| && table[i].active ==>
          n > 0 && HasKey(ticks[n - 1].produced, table[i].key) && RowSince(ticks, n, table[i]))
    && (forall i :: 0 <= i < |table| ==> (table[i].active <==> table[i].resolvedAt.None?))
  }

  /** The rows that were there, after a tick. */
  lemma ReconciledOldRows(table: seq<Row>, produced: seq<Finding>, now: real, i: nat)
    requires DistinctActive(table) && i < |table|
    ensures var r := Reconciled(table, produced, now);
            && i < |r| && r[i].key == table[i].key
            && (!table[i].active ==> r[i] == table[i])
            && (table[i].active && HasKey(produced, r[i].key) ==> FreshRow(r[i], table[i].firstSeen, now))
            && (table[i].active && !HasKey(produced, r[i].key) ==>
                  r[i] == table[i].(active := false, resolvedAt := Some(now)))
  {
    UpsertedOldRows(table, produced, now, |produced|);
    assert produced[..|produced|] == produced;
    if table[i].active {
      assert ActiveIndex(table, table[i].key) == Some(i);
    }
  }

  /** The rows a tick adds. */
  lemma ReconciledNewRows(table: seq<Row>, produced: seq<Finding>, now: real)
    requires DistinctKeys(produced)
    ensures var r := Reconciled(table, produced, now);
            && NewRowsOk(table, produced, now, |produced|, r)
            && NewRowsComplete(table, produced, |produced|, r)
  {
    UpsertedNewRows(table, produced, now, |produced|);
    UpsertedComplete(table, produced, now, |produced|);
    var t, r := Upserted(table, produced, now, |produced|), Reconciled(table, produced, now);
    assert forall i :: |table| <= i < |t| ==> r[i] == t[i];
  }

  /** After a tick the keys with an active row are the produced ones. */
  lemma ActiveAreProduced(table: seq<Row>, produced: seq<Finding>, now: real, key: Key)
    requires DistinctActive(table) && DistinctKeys(produced)
    ensures ActiveKey(Reconciled(table, produced, now), key) <==> HasKey(produced, key)
  {
    var r := Reconciled(table, produced, now);
    ReconciledNewRows(table, produced, now);
    assert produced[..|produced|] == produced;
    hide Reconciled;
    if HasKey(produced, key) {
      if ActiveKey(table, key) {
        var i := ActiveIndex(table, key).value;
        ReconciledOldRows(table, produced, now, i);
        assert r[i].active && r[i].key == key;
      } else {
        var i :| |table| <= i < |r| && r[i].key == key;
        assert r[i].active;
      }
    } else if ActiveKey(r, key) {
      var i := ActiveIndex(r, key).value;
      if i < |table| {
        ReconciledOldRows(table, produced, now, i);
      }
    }
  }

  /** One row after a tick. */
  lemma RowAfterTick(ticks: seq<Tick>, n: nat, table: seq<Row>, i: nat)
    requires 0 < n <= |ticks| && TableOk(ticks, n - 1, table) && DistinctKeys(ticks[n - 1].produced)
    requires i < |Reconciled(table, ticks[n - 1].produced, ticks[n - 1].now)|
    ensures var r := Reconciled(table, ticks[n - 1].produced, ticks[n - 1].now)[i];
            && (r.active <==> r.resolvedAt.None?)
            && (r.active ==> HasKey(ticks[n - 1].produced, r.key) && RowSince(ticks, n, r))
            && (i < |table| && r.active ==> table[i].active && table[i].key == r.key)
            && (i >= |table| ==> !ActiveKey(table, r.key))
  {
    var produced, now := ticks[n - 1].produced, ticks[n - 1].now;
    assert produced[..|produced|] == produced;
    if i < |table| {
      ReconciledOldRows(table, produced, now, i);
    } else {
      ReconciledNewRows(table, produced, now);
    }
  }

  lemma TickKeepsTableOk(ticks: seq<Tick>, n: nat, table: seq<Row>)
    requires 0 < n <= |ticks| && TableOk(ticks, n - 1, table) && DistinctKeys(ticks[n - 1].produced)
    ensures TableOk(ticks, n, Reconciled(table, ticks[n - 1].produced, ticks[n - 1].now))
  {
    var produced, now := ticks[n - 1].produced, ticks[n - 1].now;
    var r := Reconciled(table, produced, now);
    ReconciledNewRows(table, produced, now);
    hide Reconciled, RowSince;
    forall i | 0 <= i < |r|
      ensures r[i].active <==> r[i].resolvedAt.None?
      ensures r[i].active ==> HasKey(produced, r[i].key) && RowSince(ticks, n, r[i])
      ensures i < |table| && r[i].active ==> table[i].active && table[i].key == r[i].key && ActiveKey(table, r[i].key)
      ensures i >= |table| ==> !ActiveKey(table, r[i].key)
    {
      RowAfterTick(ticks, n, table, i);
    }
    forall key ensures ActiveKey(r, key) <==> HasKey(produced, key) {
      ActiveAreProduced(table, produced, now, key);
    }
  }

  /** Fleet reconcile refines history: after every committed tick the active rows are exactly the produced keys,
      one row each, and each says when the current unbroken run of ticks producing it began and that it was
      seen now. Every other row is resolved. */
  lemma {:induction false} ReconcileRefinesHistory(ticks: seq<Tick>, n: nat)
    requires n <= |ticks| && forall i :: 0 <= i < |ticks| ==> DistinctKeys(ticks[i].produced)
    ensures TableOk(ticks, n, TableAt(ticks, n))
  {
    hide Reconciled;
    if n > 0 {
      ReconcileRefinesHistory(ticks, n - 1);
      TickKeepsTableOk(ticks, n, TableAt(ticks, n - 1));
    }
  }

  // ----- From telemetry to the table -----

  /** One committed tick: the telemetry, and the clock as the rules and then the reconciliation read it. */
  datatype Snapshot = Snapshot(t: Telemetry, evaluatedAt: real, now: real)

  ghost predicate Identified(t: Telemetry) {
    DistinctIds(t.cameras) && DistinctNames(t.services)
  }

  predicate DueIn(cfg: Settings, s: Snapshot, key: Key) {
    Due(cfg, s.t, s.evaluatedAt, key)
  }

  function Produced(cfg: Settings, snaps: seq<Snapshot>): (ticks: seq<Tick>)
    ensures |ticks| == |snaps|
    ensures forall i :: 0 <= i < |snaps|
              ==> ticks[i] == Tick(Findings(cfg, snaps[i].t, snaps[i].evaluatedAt), snaps[i].now)
  {
    seq(|snaps|, i requires 0 <= i < |snaps| => Tick(Findings(cfg, snaps[i].t, snaps[i].evaluatedAt), snaps[i].now))
  }

  /** The snapshot that began the unbroken run of snapshots, ending with the i-th, that call for the key. */
  function DueStart(cfg: Settings, snaps: seq<Snapshot>, i: nat, key: Key): (s: nat)
    requires i < |snaps| && DueIn(cfg, snaps[i], key)
    ensures s <= i && forall k :: s <= k <= i ==> DueIn(cfg, snaps[k], key)
    ensures s > 0 ==> !DueIn(cfg, snaps[s - 1], key)
  {
    if i > 0 && DueIn(cfg, snaps[i - 1], key) then DueStart(cfg, snaps, i - 1, key) else i
  }

  lemma ProducedExactly(cfg: Settings, snaps: seq<Snapshot>, i: nat, key: Key)
    requires i < |snaps|
    ensures HasKey(Produced(cfg, snaps)[i].produced, key) <==> DueIn(cfg, snaps[i], key)
  {
    hide HasKey, Due, Findings;
    FindingsExact(cfg, snaps[i].t, snaps[i].evaluatedAt, key);
  }

  /** Both are the start of one unbroken run. */
  lemma RunStartIsDueStart(cfg: Settings, snaps: seq<Snapshot>, i: nat, key: Key)
    requires i < |snaps| && HasKey(Produced(cfg, snaps)[i].produced, key)
    ensures DueIn(cfg, snaps[i], key) && RunStart(Produced(cfg, snaps), i, key) == DueStart(cfg, snaps, i, key)
  {
    hide HasKey, DueIn, Findings, RunStart, DueStart;
    forall k | 0 <= k <= i ensures HasKey(Produced(cfg, snaps)[k].produced, key) <==> DueIn(cfg, snaps[k], key) {
      ProducedExactly(cfg, snaps, k, key);
    }
  }

  lemma ProducedDistinct(cfg: Settings, snaps: seq<Snapshot>, i: nat)
    requires i < |snaps| && Identified(snaps[i].t)
    ensures DistinctKeys(Produced(cfg, snaps)[i].produced)
  {
    hide DistinctKeys, DistinctIds, DistinctNames;
    FindingsDistinct(cfg, snaps[i].t, snaps[i].evaluatedAt);
  }

  lemma TelemetryTableOk(cfg: Settings, snaps: seq<Snapshot>)
    requires forall i :: 0 <= i < |snaps| ==> Identified(snaps[i].t)
    ensures TableOk(Produced(cfg, snaps), |snaps|, TableAt(Produced(cfg, snaps), |snaps|))
  {
    hide TableOk, TableAt, DistinctKeys, Identified, Findings;
    forall i | 0 <= i < |snaps| ensures DistinctKeys(Produced(cfg, snaps)[i].produced) {
      ProducedDistinct(cfg, snaps, i);
    }
    ReconcileRefinesHistory(Produced(cfg, snaps), |snaps|);
  }

  /** The row says when the unbroken run of snapshots that call for its key began, and that the last one did. */
  predicate RowFollows(cfg: Settings, snaps: seq<Snapshot>, r: Row)
    requires snaps != []
  {
    var n := |snaps| - 1;
    && DueIn(cfg, snaps[n], r.key)
    && r.firstSeen == snaps[DueStart(cfg, snaps, n, r.key)].now && r.lastSeen == snaps[n].now
    && r.severity == SeverityDue(snaps[n].t, r.key)
  }

  lemma {:induction false} ActiveRowSevere(cfg: Settings, snaps: seq<Snapshot>, i: nat)
    requires snaps != [] && (forall k :: 0 <= k < |snaps| ==> Identified(snaps[k].t))
    requires i < |TableAt(Produced(cfg, snaps), |snaps|)| && TableAt(Produced(cfg, snaps), |snaps|)[i].active
    ensures var r := TableAt(Produced(cfg, snaps), |snaps|)[i];
            r.severity == SeverityDue(snaps[|snaps| - 1].t, r.key)
  {
    hide Reconciled, Findings, Identified, DistinctKeys, SeverityDue, DistinctActive;
    var ticks, n := Produced(cfg, snaps), |snaps| - 1;
    forall k | 0 <= k < |snaps| ensures DistinctKeys(ticks[k].produced) {
      ProducedDistinct(cfg, snaps, k);
    }
    ReconcileRefinesHistory(ticks, n);
    ReconciledSeverity(TableAt(ticks, n), ticks[n].produced, ticks[n].now, i);
    FindingsSevere(cfg, snaps[n].t, snaps[n].evaluatedAt);
  }

  lemma ActiveRowFollows(cfg: Settings, snaps: seq<Snapshot>, r: Row)
    requires snaps != [] && r.severity == SeverityDue(snaps[|snaps| - 1].t, r.key)
    requires HasKey(Produced(cfg, snaps)[|snaps| - 1].produced, r.key)
    requires RowSince(Produced(cfg, snaps), |snaps|, r)
    ensures RowFollows(cfg, snaps, r)
  {
    hide HasKey, DueIn, RunStart, DueStart, Findings;
    RunStartIsDueStart(cfg, snaps, |snaps| - 1, r.key);
  }

  /** The active keys are those the last snapshot calls for. */
  ghost predicate KeysFollow(cfg: Settings, snaps: seq<Snapshot>, table: seq<Row>)
    requires snaps != []
  {
    forall key :: ActiveKey(table, key) <==> DueIn(cfg, snaps[|snaps| - 1], key)
  }

  ghost predicate RowsFollow(cfg: Settings, snaps: seq<Snapshot>, table: seq<Row>)
    requires snaps != []
  {
    forall i :: 0 <= i < |table| && table[i].active ==> RowFollows(cfg, snaps, table[i])
  }

  lemma {:induction false} TableKeysFollow(cfg: Settings, snaps: seq<Snapshot>, table: seq<Row>)
    requires snaps != [] && TableOk(Produced(cfg, snaps), |snaps|, table)
    ensures KeysFollow(cfg, snaps, table)
  {
    hide ActiveKey, HasKey, DueIn, RowSince, DistinctActive, Findings;
    forall key ensures ActiveKey(table, key) <==> DueIn(cfg, snaps[|snaps| - 1], key) {
      ProducedExactly(cfg, snaps, |snaps| - 1, key);
    }
  }

  lemma {:induction false} TableRowFollows(cfg: Settings, snaps: seq<Snapshot>, table: seq<Row>, i: nat)
    requires snaps != [] && TableOk(Produced(cfg, snaps), |snaps|, table) && i < |table| && table[i].active
    requires forall k :: 0 <= k < |snaps| ==> Identified(snaps[k].t)
    requires table == TableAt(Produced(cfg, snaps), |snaps|)
    ensures RowFollows(cfg, snaps, table[i])
  {
    ActiveRowSevere(cfg, snaps, i);
    hide TableAt, Identified, SeverityDue, ActiveKey, HasKey, DueIn, RowSince, RowFollows, DistinctActive, Findings;
    ActiveRowFollows(cfg, snaps, table[i]);
  }

  lemma {:induction false} TableRowsFollow(cfg: Settings, snaps: seq<Snapshot>, table: seq<Row>)
    requires snaps != [] && TableOk(Produced(cfg, snaps), |snaps|, table)
    requires forall k :: 0 <= k < |snaps| ==> Identified(snaps[k].t)
    requires table == TableAt(Produced(cfg, snaps), |snaps|)
    ensures RowsFollow(cfg, snaps, table)
  {
    hide TableAt, Identified, TableOk, Produced, RowFollows;
    forall i | 0 <= i < |table| && table[i].active ensures RowFollows(cfg, snaps, table[i]) {
      TableRowFollows(cfg, snaps, table, i);
    }
  }

  /** From telemetry to the table: after any run of ticks on snapshots with distinct camera ids and service names,
      the keys with an active row are exactly those the last snapshot calls for, one row each, and each row says
      when the current unbroken run of snapshots that call for it began. */
  lemma TableFollowsTelemetry(cfg: Settings, snaps: seq<Snapshot>)
    requires snaps != [] && forall i :: 0 <= i < |snaps| ==> Identified(snaps[i].t)
    ensures var table := TableAt(Produced(cfg, snaps), |snaps|);
            DistinctActive(table) && KeysFollow(cfg, snaps, table) && RowsFollow(cfg, snaps, table)
  {
    hide Produced, TableAt, KeysFollow, RowsFollow, Identified, ActiveKey, HasKey, RowSince, DistinctActive;
    TelemetryTableOk(cfg, snaps);
    TableKeysFollow(cfg, snaps, TableAt(Produced(cfg, snaps), |snaps|));
    TableRowsFollow(cfg, snaps, TableAt(Produced(cfg, snaps), |snaps|));
  }
}
