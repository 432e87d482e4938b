/** The Kubernetes objects of a lab, and the state that is read back from them after a restart. */
module LabBuilder {
  import opened Wrappers
  import opened LabModels

  // ----- models

  datatype Group = Group(name: string, id: nat)

  type Gigabytes = memory: real | memory >= 0.0

  datatype NotebookQuota = NotebookQuota(cpu: real, memory: Gigabytes, memoryBytes: nat)

  datatype User = User(username: string, name: Option<string>, uid: nat, gid: nat, groups: seq<Group>, quota: Option<NotebookQuota>)

  datatype LabSize = Fine | Diminutive | Tiny | Small | Medium | Large | Huge | Gargantuan | Colossal | Custom

  datatype Quantity = Quantity(cpu: real, memory: nat)

  datatype Resources = Resources(limits: Quantity, requests: Quantity)

  datatype SizeDefinition = SizeDefinition(size: LabSize, resources: Resources, title: string)

  datatype Spec = Spec(env: map<string, string>, size: LabSize, enableDebug: bool, resetUserEnv: bool)

  datatype Image = Image(reference: string, displayName: string, digest: string)

  datatype Config = Config(
    sizes: seq<SizeDefinition>,
    env: map<string, string>,
    extraAnnotations: map<string, string>,
    namespacePrefix: string,
    activityInterval: nat,
    baseUrl: string,
    jupyterlabConfigDir: string,
    startCommand: string,
    runtimeMountsDir: string,
    repertoireUrl: string)

  datatype UserInfo = UserInfo(username: string, name: Option<string>, uid: nat, gid: nat, groups: seq<Group>)

  datatype Options = Options(image: string, size: LabSize, enableDebug: bool, resetUserEnv: bool)

  datatype LabState = LabState(user: UserInfo, options: Options, status: LabStatus, internalUrl: Option<string>,
                               resources: Resources, quota: Option<Quantity>)

  datatype Container = Container(name: string, runAsUser: nat, runAsGroup: nat)

  datatype LabObjects = LabObjects(env: map<string, string>, annotations: map<string, string>, containers: seq<Container>,
                                   quota: Option<map<string, string>>)

  /** How numbers of CPUs and lists of groups are written and read; `None` stands for an exception. */
  datatype Formats = Formats(printCpu: real -> string, parseCpu: string -> Option<real>,
                             printGroups: seq<Group> -> string, parseGroups: string -> Option<seq<Group>>)
  {
    /** This number of CPUs is read back as it was. */
    predicate ReadsCpu(cpu: real) {
      parseCpu(printCpu(cpu)) == Some(cpu)
    }
  }

  // ----- decimal numbers

  function Digit(d: nat): char
    requires d < 10
  {
    ('0' as int + d) as char
  }

  /** `str` of an integer that is not negative. */
  function PrintNat(n: nat): string {
    if n < 10 then [Digit(n)] else PrintNat(n / 10) + [Digit(n % 10)]
  }

  /** `int` of a string of digits. */
  function ParseNat(s: string): Option<nat> {
    if s == "" || !('0' <= s[|s| - 1] <= '9') then None
    else
      var d := s[|s| - 1] as int - '0' as int;
      if |s| == 1 then Some(d)
      else
        match ParseNat(s[..|s| - 1])
        case None => None
        case Some(front) => Some(10 * front + d)
  }

  lemma {:induction false} ParsePrinted(n: nat)
    ensures PrintNat(n) != "" && ParseNat(PrintNat(n)) == Some(n)
  {
    if n >= 10 {
      ParsePrinted(n / 10);
      assert PrintNat(n)[..|PrintNat(n)| - 1] == PrintNat(n / 10);
    }
  }

  /** Numbers are written in decimal, highest digit first. */
  lemma PrintsDecimal(n: nat)
    ensures n < 10 ==> PrintNat(n) == ["0123456789"[n]]
    ensures PrintNat(10 * n + 7) == if n == 0 then "7" else PrintNat(n) + "7"
  {
    assert (10 * n + 7) / 10 == n && (10 * n + 7) % 10 == 7;
  }

  /** Exactly what consists of digits is read as a number. */
  lemma {:induction false} DigitsParse(s: string)
    ensures ParseNat(s).Some? <==> s != "" && forall c | c in s :: '0' <= c <= '9'
  {
    if s != "" {
      var n := |s| - 1;
      DigitsParse(s[..n]);
      assert s == s[..n] + [s[n]];
      assert s[n] in s && forall c | c in s[..n] :: c in s;
      if s[..n] == "" {
        assert s == [s[n]];
      }
    }
  }

  // ----- sizes

  /** No size is defined twice: `_validate_sizes`. */
  predicate SizesOk(sizes: seq<SizeDefinition>) {
    sizes != [] && forall j, k | 0 <= j < k < |sizes| :: sizes[j].size != sizes[k].size
  }

  /** `_validate_sizes` accepts exactly the lists without a repeated size that define some size. */
  method ValidateSizes(sizes: seq<SizeDefinition>) returns (ok: bool)
    ensures ok <==> SizesOk(sizes)
  {
    if sizes == [] {
      return false;
    }
    var seen: set<LabSize> := {};
    for n := 0 to |sizes|
      invariant forall j, k | 0 <= j < k < n :: sizes[j].size != sizes[k].size
      invariant seen == set j | 0 <= j < n :: sizes[j].size
    {
      if sizes[n].size in seen {
        return false;
      }
      seen := seen + {sizes[n].size};
    }
    ok := true;
  }

  function GetSize(sizes: seq<SizeDefinition>, size: LabSize): Option<SizeDefinition> {
    if sizes == [] then None
    else if sizes[0].size == size then Some(sizes[0])
    else GetSize(sizes[1..], size)
  }

  function SizeFor(sizes: seq<SizeDefinition>, resources: Resources): LabSize {
    if sizes == [] then Custom
    else if sizes[0].resources == resources then sizes[0].size
    else SizeFor(sizes[1..], resources)
  }

  /** `get_size_definition` */
  method GetSizeDefinition(sizes: seq<SizeDefinition>, size: LabSize) returns (definition: Option<SizeDefinition>)
    ensures definition == GetSize(sizes, size)
    ensures definition.Some? ==> definition.value in sizes && definition.value.size == size
    ensures definition.None? ==> forall d | d in sizes :: d.size != size
  {
    for k := 0 to |sizes|
      invariant GetSize(sizes, size) == GetSize(sizes[k..], size)
      invariant forall j | 0 <= j < k :: sizes[j].size != size
    {
      if sizes[k].size == size {
        return Some(sizes[k]);
      }
    }
    definition := None;
  }

  /** `_recreate_size` */
  method RecreateSize(sizes: seq<SizeDefinition>, resources: Resources) returns (size: LabSize)
    ensures size == SizeFor(sizes, resources)
    ensures (exists k :: && 0 <= k < |sizes| && sizes[k].resources == resources && size == sizes[k].size
                         && forall j | 0 <= j < k :: sizes[j].resources != resources)
            || (size == Custom && forall d | d in sizes :: d.resources != resources)
  {
    for k := 0 to |sizes|
      invariant SizeFor(sizes, resources) == SizeFor(sizes[k..], resources)
      invariant forall j | 0 <= j < k :: sizes[j].resources != resources
    {
      if sizes[k].resources == resources {
        return sizes[k].size;
      }
    }
    size := Custom;
  }

  /** No size defined before this one has the same resources. */
  predicate NoEarlierTwin(sizes: seq<SizeDefinition>, size: LabSize) {
    forall j, k | 0 <= j < k < |sizes| && sizes[k].size == size :: sizes[j].resources != sizes[k].resources
  }

  lemma {:induction false} SizeFoundAt(sizes: seq<SizeDefinition>, size: LabSize) returns (k: nat)
    requires GetSize(sizes, size).Some?
    ensures k < |sizes| && sizes[k] == GetSize(sizes, size).value && sizes[k].size == size
  {
    if sizes[0].size == size {
      k := 0;
    } else {
      k := SizeFoundAt(sizes[1..], size);
      k := k + 1;
    }
  }

  /** The size read back is that of the first definition with these resources. */
  lemma {:induction false} FirstWithResources(sizes: seq<SizeDefinition>, k: nat) returns (j: nat)
    requires k < |sizes|
    ensures j <= k && sizes[j].resources == sizes[k].resources && SizeFor(sizes, sizes[k].resources) == sizes[j].size
    ensures forall i | 0 <= i < j :: sizes[i].resources != sizes[k].resources
  {
    if sizes[0].resources == sizes[k].resources {
      j := 0;
    } else {
      j := FirstWithResources(sizes[1..], k - 1);
      j := j + 1;
    }
  }

  /** A size comes back from its resources iff no size defined before it has the same. */
  lemma SizeComesBack(sizes: seq<SizeDefinition>, size: LabSize)
    requires SizesOk(sizes) && GetSize(sizes, size).Some?
    ensures SizeFor(sizes, GetSize(sizes, size).value.resources) == size <==> NoEarlierTwin(sizes, size)
  {
    var k := SizeFoundAt(sizes, size);
    var j := FirstWithResources(sizes, k);
  }

  // ----- what is written

  const NOTEBOOK := "notebook"
  const GROUPS_ANNOTATION := "nublado.lsst.io/user-groups"
  const NAME_ANNOTATION := "nublado.lsst.io/user-name"
  const ARGO_CD_ANNOTATIONS := map["argocd.argoproj.io/compare-options" := "IgnoreExtraneous",
                                   "argocd.argoproj.io/sync-options" := "Prune=false"]
  const RESERVED_ENV := {"ACCESS_TOKEN", "DEBUG", "CONTAINER_SIZE", "CPU_GUARANTEE", "CPU_LIMIT", "EXTERNAL_INSTANCE_URL",
                         "IMAGE_DIGEST", "IMAGE_DESCRIPTION", "JPY_API_TOKEN", "JUPYTER_IMAGE", "JUPYTER_IMAGE_SPEC",
                         "KUBERNETES_NODE_NAME", "MEM_GUARANTEE", "MEM_LIMIT", "RESET_USER_ENV"}

  /** `_reject_reserved_env` lets this name through. */
  predicate Allowed(name: string) {
    name !in RESERVED_ENV && !("JUPYTERHUB_" <= name)
  }

  ghost predicate EnvOk(env: map<string, string>) {
    forall name | name in env :: Allowed(name)
  }

  function OptionEnv(spec: Spec): map<string, string> {
    (if spec.enableDebug then map["DEBUG" := "TRUE"] else map[])
    + (if spec.resetUserEnv then map["RESET_USER_ENV" := "TRUE"] else map[])
  }

  function StandardEnv(f: Formats, config: Config, definition: SizeDefinition, image: Image): map<string, string> {
    map["JUPYTER_IMAGE" := image.reference,
        "JUPYTER_IMAGE_SPEC" := image.reference,
        "IMAGE_DESCRIPTION" := image.displayName,
        "IMAGE_DIGEST" := image.digest,
        "CONTAINER_SIZE" := definition.title,
        "CPU_GUARANTEE" := f.printCpu(definition.resources.requests.cpu),
        "CPU_LIMIT" := f.printCpu(definition.resources.limits.cpu),
        "MEM_GUARANTEE" := PrintNat(definition.resources.requests.memory),
        "MEM_LIMIT" := PrintNat(definition.resources.limits.memory),
        "JUPYTERHUB_ACTIVITY_INTERVAL" := PrintNat(config.activityInterval),
        "EXTERNAL_INSTANCE_URL" := config.baseUrl,
        "JUPYTERLAB_CONFIG_DIR" := config.jupyterlabConfigDir,
        "JUPYTERLAB_START_COMMAND" := config.startCommand,
        "NUBLADO_RUNTIME_MOUNTS_DIR" := config.runtimeMountsDir]
  }

  function RepertoireEnv(config: Config): map<string, string> {
    if config.repertoireUrl == "" then map[] else map["REPERTOIRE_BASE_URL" := config.repertoireUrl]
  }

  function Env(f: Formats, config: Config, spec: Spec, definition: SizeDefinition, image: Image): map<string, string> {
    spec.env + OptionEnv(spec) + StandardEnv(f, config, definition, image) + RepertoireEnv(config) + config.env
  }

  function Lookup(env: map<string, string>, name: string): Option<string> {
    if name in env then Some(env[name]) else None
  }

  lemma ResourcesWritten(f: Formats, config: Config, definition: SizeDefinition, image: Image)
    ensures var env := StandardEnv(f, config, definition, image);
            && Lookup(env, "JUPYTER_IMAGE_SPEC") == Some(image.reference)
            && Lookup(env, "CPU_LIMIT") == Some(f.printCpu(definition.resources.limits.cpu))
            && Lookup(env, "CPU_GUARANTEE") == Some(f.printCpu(definition.resources.requests.cpu))
  {
  }

  lemma MemoryWritten(f: Formats, config: Config, definition: SizeDefinition, image: Image)
    ensures var env := StandardEnv(f, config, definition, image);
            && Lookup(env, "MEM_LIMIT") == Some(PrintNat(definition.resources.limits.memory))
            && Lookup(env, "MEM_GUARANTEE") == Some(PrintNat(definition.resources.requests.memory))
  {
  }

  lemma OptionsNotStandard(f: Formats, config: Config, definition: SizeDefinition, image: Image)
    ensures var env := StandardEnv(f, config, definition, image); "DEBUG" !in env && "RESET_USER_ENV" !in env
  {
  }

  lemma PrefixNotStandard(f: Formats, config: Config, definition: SizeDefinition, image: Image)
    ensures "JUPYTERHUB_SERVICE_PREFIX" !in StandardEnv(f, config, definition, image)
  {
  }

  /** Nothing the configuration may set is read back. */
  lemma ReadNamesReserved()
    ensures forall name | name in {"JUPYTER_IMAGE_SPEC", "CPU_LIMIT", "CPU_GUARANTEE", "MEM_LIMIT", "MEM_GUARANTEE",
                                   "DEBUG", "RESET_USER_ENV", "JUPYTERHUB_SERVICE_PREFIX"} :: !Allowed(name)
  {
  }

  lemma RepertoireAllowed(config: Config)
    ensures forall name | name in RepertoireEnv(config) :: Allowed(name)
  {
    assert "REPERTOIRE_BASE_URL"[0] != "JUPYTERHUB_"[0];
  }

  lemma OptionsApart(spec: Spec)
    ensures var env := spec.env + OptionEnv(spec);
            && Lookup(env, "DEBUG") == (if spec.enableDebug then Some("TRUE") else Lookup(spec.env, "DEBUG"))
            && Lookup(env, "RESET_USER_ENV") == (if spec.resetUserEnv then Some("TRUE") else Lookup(spec.env, "RESET_USER_ENV"))
            && Lookup(env, "JUPYTERHUB_SERVICE_PREFIX") == Lookup(spec.env, "JUPYTERHUB_SERVICE_PREFIX")
  {
  }

  /** Every value that is read back, whatever the hub and the configuration set besides. */
  lemma EnvHas(f: Formats, config: Config, spec: Spec, definition: SizeDefinition, image: Image)
    requires EnvOk(config.env)
    ensures var env := Env(f, config, spec, definition, image);
            && Lookup(env, "JUPYTER_IMAGE_SPEC") == Some(image.reference)
            && Lookup(env, "CPU_LIMIT") == Some(f.printCpu(definition.resources.limits.cpu))
            && Lookup(env, "CPU_GUARANTEE") == Some(f.printCpu(definition.resources.requests.cpu))
            && Lookup(env, "MEM_LIMIT") == Some(PrintNat(definition.resources.limits.memory))
            && Lookup(env, "MEM_GUARANTEE") == Some(PrintNat(definition.resources.requests.memory))
            && Lookup(env, "DEBUG") == (if spec.enableDebug then Some("TRUE") else Lookup(spec.env, "DEBUG"))
            && Lookup(env, "RESET_USER_ENV") == (if spec.resetUserEnv then Some("TRUE") else Lookup(spec.env, "RESET_USER_ENV"))
            && Lookup(env, "JUPYTERHUB_SERVICE_PREFIX") == Lookup(spec.env, "JUPYTERHUB_SERVICE_PREFIX")
  {
    hide StandardEnv, OptionEnv, RepertoireEnv, Allowed, PrintNat;
    ResourcesWritten(f, config, definition, image);
    MemoryWritten(f, config, definition, image);
    OptionsNotStandard(f, config, definition, image);
    PrefixNotStandard(f, config, definition, image);
    ReadNamesReserved();
    RepertoireAllowed(config);
    OptionsApart(spec);
  }

  /** `_build_env_config_map`: the environment in layers, each over the ones before. */
  method BuildEnvConfigMap(f: Formats, config: Config, spec: Spec, image: Image) returns (r: Option<map<string, string>>)
    ensures r == match GetSize(config.sizes, spec.size)
                 case None => None
                 case Some(definition) => Some(Env(f, config, spec, definition, image))
  {
    hide StandardEnv;
    var env := spec.env;
    if spec.enableDebug {
      env := env["DEBUG" := "TRUE"];
    }
    if spec.resetUserEnv {
      env := env["RESET_USER_ENV" := "TRUE"];
    }
    assert env == spec.env + OptionEnv(spec);
    var definition := GetSizeDefinition(config.sizes, spec.size);
    if definition.None? {
      return None;
    }
    env := env + StandardEnv(f, config, definition.value, image);
    if config.repertoireUrl != "" {
      env := env["REPERTOIRE_BASE_URL" := config.repertoireUrl];
    }
    assert env == spec.env + OptionEnv(spec) + StandardEnv(f, config, definition.value, image) + RepertoireEnv(config);
    env := env + config.env;
    r := Some(env);
  }

  const STANDARD_NAMES := {"JUPYTER_IMAGE", "JUPYTER_IMAGE_SPEC", "IMAGE_DESCRIPTION", "IMAGE_DIGEST", "CONTAINER_SIZE", "CPU_GUARANTEE",
                           "CPU_LIMIT", "MEM_GUARANTEE", "MEM_LIMIT", "JUPYTERHUB_ACTIVITY_INTERVAL", "EXTERNAL_INSTANCE_URL",
                           "JUPYTERLAB_CONFIG_DIR", "JUPYTERLAB_START_COMMAND", "NUBLADO_RUNTIME_MOUNTS_DIR"}

  /** A configured variable has its configured value, whatever else is set; the hub's have theirs unless something above them is set. */
  lemma EnvLayers(f: Formats, config: Config, spec: Spec, definition: SizeDefinition, image: Image, name: string)
    ensures var value := Lookup(Env(f, config, spec, definition, image), name);
            && (name in config.env ==> value == Some(config.env[name]))
            && (name !in config.env && config.repertoireUrl != "" && name == "REPERTOIRE_BASE_URL" ==> value == Some(config.repertoireUrl))
            && (name !in config.env && name !in STANDARD_NAMES && name !in {"DEBUG", "RESET_USER_ENV", "REPERTOIRE_BASE_URL"} ==>
                  value == Lookup(spec.env, name))
  {
    hide StandardEnv, OptionEnv, RepertoireEnv, STANDARD_NAMES;
    StandardName(f, config, definition, image, name);
    OptionLayer(spec, name);
    RepertoireLayer(config, name);
  }

  lemma StandardName(f: Formats, config: Config, definition: SizeDefinition, image: Image, name: string)
    ensures name in StandardEnv(f, config, definition, image) <==> name in STANDARD_NAMES
  {
    hide PrintNat;
  }

  lemma OptionLayer(spec: Spec, name: string)
    ensures name !in {"DEBUG", "RESET_USER_ENV"} ==> Lookup(spec.env + OptionEnv(spec), name) == Lookup(spec.env, name)
  {
  }

  lemma RepertoireLayer(config: Config, name: string)
    ensures Lookup(RepertoireEnv(config), name) ==
            if config.repertoireUrl != "" && name == "REPERTOIRE_BASE_URL" then Some(config.repertoireUrl) else None
  {
  }

  lemma StandardValue(f: Formats, config: Config, spec: Spec, definition: SizeDefinition, image: Image, name: string)
    requires name in STANDARD_NAMES && name !in config.env
    ensures Lookup(Env(f, config, spec, definition, image), name) == Lookup(StandardEnv(f, config, definition, image), name)
  {
    hide StandardEnv, OptionEnv, RepertoireEnv;
    assert name[0] != 'R';
    StandardName(f, config, definition, image, name);
    RepertoireLayer(config, name);
  }

  /** The variables that tell a lab about its image and itself, unless configured otherwise. */
  lemma EnvDescribes(f: Formats, config: Config, spec: Spec, definition: SizeDefinition, image: Image)
    ensures var env := Env(f, config, spec, definition, image);
            && ("JUPYTER_IMAGE" !in config.env ==> Lookup(env, "JUPYTER_IMAGE") == Some(image.reference))
            && ("IMAGE_DESCRIPTION" !in config.env ==> Lookup(env, "IMAGE_DESCRIPTION") == Some(image.displayName))
            && ("IMAGE_DIGEST" !in config.env ==> Lookup(env, "IMAGE_DIGEST") == Some(image.digest))
            && ("CONTAINER_SIZE" !in config.env ==> Lookup(env, "CONTAINER_SIZE") == Some(definition.title))
            && ("JUPYTERHUB_ACTIVITY_INTERVAL" !in config.env ==>
                  Lookup(env, "JUPYTERHUB_ACTIVITY_INTERVAL") == Some(PrintNat(config.activityInterval)))
  {
    hide Env, PrintNat;
    ImageValues(f, config, definition, image);
    forall name | name in {"JUPYTER_IMAGE", "IMAGE_DESCRIPTION", "IMAGE_DIGEST", "CONTAINER_SIZE", "JUPYTERHUB_ACTIVITY_INTERVAL"} && name !in config.env
      ensures Lookup(Env(f, config, spec, definition, image), name) == Lookup(StandardEnv(f, config, definition, image), name)
    {
      StandardValue(f, config, spec, definition, image, name);
    }
  }

  lemma ImageValues(f: Formats, config: Config, definition: SizeDefinition, image: Image)
    ensures var env := StandardEnv(f, config, definition, image);
            && Lookup(env, "JUPYTER_IMAGE") == Some(image.reference) && Lookup(env, "IMAGE_DESCRIPTION") == Some(image.displayName)
            && Lookup(env, "IMAGE_DIGEST") == Some(image.digest) && Lookup(env, "CONTAINER_SIZE") == Some(definition.title)
            && Lookup(env, "JUPYTERHUB_ACTIVITY_INTERVAL") == Some(PrintNat(config.activityInterval))
  {
    hide PrintNat;
  }

  /** The variables that tell a lab where things are, unless configured otherwise. */
  lemma EnvLocates(f: Formats, config: Config, spec: Spec, definition: SizeDefinition, image: Image)
    ensures var env := Env(f, config, spec, definition, image);
            && ("EXTERNAL_INSTANCE_URL" !in config.env ==> Lookup(env, "EXTERNAL_INSTANCE_URL") == Some(config.baseUrl))
            && ("JUPYTERLAB_CONFIG_DIR" !in config.env ==> Lookup(env, "JUPYTERLAB_CONFIG_DIR") == Some(config.jupyterlabConfigDir))
            && ("JUPYTERLAB_START_COMMAND" !in config.env ==> Lookup(env, "JUPYTERLAB_START_COMMAND") == Some(config.startCommand))
            && ("NUBLADO_RUNTIME_MOUNTS_DIR" !in config.env ==> Lookup(env, "NUBLADO_RUNTIME_MOUNTS_DIR") == Some(config.runtimeMountsDir))
  {
    hide Env, PrintNat;
    PlaceValues(f, config, definition, image);
    forall name | name in {"EXTERNAL_INSTANCE_URL", "JUPYTERLAB_CONFIG_DIR", "JUPYTERLAB_START_COMMAND", "NUBLADO_RUNTIME_MOUNTS_DIR"}
                  && name !in config.env
      ensures Lookup(Env(f, config, spec, definition, image), name) == Lookup(StandardEnv(f, config, definition, image), name)
    {
      StandardValue(f, config, spec, definition, image, name);
    }
  }

  lemma PlaceValues(f: Formats, config: Config, definition: SizeDefinition, image: Image)
    ensures var env := StandardEnv(f, config, definition, image);
            && Lookup(env, "EXTERNAL_INSTANCE_URL") == Some(config.baseUrl)
            && Lookup(env, "JUPYTERLAB_CONFIG_DIR") == Some(config.jupyterlabConfigDir)
            && Lookup(env, "JUPYTERLAB_START_COMMAND") == Some(config.startCommand)
            && Lookup(env, "NUBLADO_RUNTIME_MOUNTS_DIR") == Some(config.runtimeMountsDir)
  {
    hide PrintNat;
  }

  /** `_build_quota`, as the limits of the namespace. */
  function BuildQuota(f: Formats, user: User): Option<map<string, string>> {
    if user.quota.None? then None
    else
      Some(map["limits.cpu" := f.printCpu(user.quota.value.cpu),
               "limits.memory" := PrintNat(Bytes(user.quota.value.memory))])
  }

  /** `int(memory * 1024 * 1024 * 1024)` */
  function Bytes(memory: Gigabytes): nat {
    (memory * 1024.0 * 1024.0 * 1024.0).Floor
  }

  /** A gigabyte has 2^30 bytes, and a part of a byte does not count. */
  lemma GigabyteBytes(memory: Gigabytes, n: nat)
    ensures Bytes(memory) as real <= memory * 1073741824.0 < Bytes(memory) as real + 1.0
    ensures Bytes(n as real) == n * 1073741824
  {
    assert (n as real) * 1024.0 * 1024.0 * 1024.0 == (n * 1073741824) as real;
  }

  /** The annotations of the pod: those of every object, the user's, and the configured ones over both. */
  function Annotations(f: Formats, config: Config, user: User): map<string, string> {
    ARGO_CD_ANNOTATIONS + map[GROUPS_ANNOTATION := f.printGroups(user.groups)]
    + (if user.name.Some? then map[NAME_ANNOTATION := user.name.value] else map[])
    + config.extraAnnotations
  }

  /** A configured annotation has its configured value; else there are those of every object and the user's, and no others. */
  lemma AnnotationLayers(f: Formats, config: Config, user: User, name: string)
    ensures var value := Lookup(Annotations(f, config, user), name);
            && (name in config.extraAnnotations ==> value == Some(config.extraAnnotations[name]))
            && (name !in config.extraAnnotations ==>
                  value == if name == "nublado.lsst.io/user-name" then user.name
                           else if name == "nublado.lsst.io/user-groups" then Some(f.printGroups(user.groups))
                           else if name == "argocd.argoproj.io/compare-options" then Some("IgnoreExtraneous")
                           else if name == "argocd.argoproj.io/sync-options" then Some("Prune=false")
                           else None)
  {
    assert |"nublado.lsst.io/user-name"| == 25 && |"nublado.lsst.io/user-groups"| == 27;
    assert |"argocd.argoproj.io/compare-options"| == 34 && |"argocd.argoproj.io/sync-options"| == 31;
  }

  /** The parts of `build_lab` that are read back. */
  function Build(f: Formats, config: Config, user: User, spec: Spec, definition: SizeDefinition, image: Image): LabObjects {
    LabObjects(Env(f, config, spec, definition, image), Annotations(f, config, user),
               [Container(NOTEBOOK, user.uid, user.gid)], BuildQuota(f, user))
  }

  // ----- what is read back

  function FindNotebook(containers: seq<Container>): Option<Container> {
    if containers == [] then None
    else if containers[0].name == NOTEBOOK then Some(containers[0])
    else FindNotebook(containers[1..])
  }

  /** `build_internal_url` */
  function InternalUrl(config: Config, username: string, env: map<string, string>): Option<string> {
    match Lookup(env, "JUPYTERHUB_SERVICE_PREFIX")
    case None => None
    case Some(path) => Some("http://lab." + config.namespacePrefix + "-" + username + ":8888" + path)
  }

  function ReadCpu(f: Formats, env: map<string, string>, name: string): Option<real> {
    if name in env then f.parseCpu(env[name]) else None
  }

  function ReadNat(env: map<string, string>, name: string): Option<nat> {
    if name in env then ParseNat(env[name]) else None
  }

  function ReadQuantity(f: Formats, env: map<string, string>, cpuName: string, memoryName: string): Option<Quantity> {
    match (ReadCpu(f, env, cpuName), ReadNat(env, memoryName))
    case (Some(cpu), Some(memory)) => Some(Quantity(cpu, memory))
    case _ => None
  }

  function ReadGroups(f: Formats, annotations: map<string, string>): Option<seq<Group>> {
    f.parseGroups(Lookup(annotations, GROUPS_ANNOTATION).GetOr("[]"))
  }

  /** `_recreate_quota`; the outer `None` stands for an exception. */
  function ReadQuota(f: Formats, quota: Option<map<string, string>>): Option<Option<Quantity>> {
    if quota.None? then Some(None)
    else
      match ReadQuantity(f, quota.value, "limits.cpu", "limits.memory")
      case None => None
      case Some(q) => Some(Some(q))
  }

  predicate Flag(env: map<string, string>, name: string) {
    Lookup(env, name).GetOr("FALSE") == "TRUE"
  }

  /** `recreate_lab_state` of the objects found; anything missing or malformed gives nothing. */
  function Recreate(f: Formats, config: Config, username: string, objects: LabObjects, phase: PodPhase): Option<LabState> {
    var env := objects.env;
    match (FindNotebook(objects.containers), ReadQuantity(f, env, "CPU_LIMIT", "MEM_LIMIT"),
           ReadQuantity(f, env, "CPU_GUARANTEE", "MEM_GUARANTEE"), Lookup(env, "JUPYTER_IMAGE_SPEC"),
           ReadGroups(f, objects.annotations), InternalUrl(config, username, env), ReadQuota(f, objects.quota))
    case (Some(container), Some(limits), Some(requests), Some(image), Some(groups), Some(url), Some(quota)) =>
      var resources := Resources(limits, requests);
      Some(LabState(
             UserInfo(username, Lookup(objects.annotations, NAME_ANNOTATION), container.runAsUser, container.runAsGroup, groups),
             Options(image, SizeFor(config.sizes, resources), Flag(env, "DEBUG"), Flag(env, "RESET_USER_ENV")),
             FromPhase(phase), Some(url), resources, quota))
    case _ => None
  }

  lemma {:induction false} FirstNotebook(containers: seq<Container>) returns (k: nat)
    requires FindNotebook(containers).Some?
    ensures k < |containers| && FindNotebook(containers) == Some(containers[k]) && containers[k].name == "notebook"
    ensures forall j | 0 <= j < k :: containers[j].name != "notebook"
  {
    if containers[0].name == NOTEBOOK {
      k := 0;
    } else {
      k := FirstNotebook(containers[1..]);
      k := k + 1;
    }
  }

  lemma {:induction false} NotebookFound(containers: seq<Container>)
    ensures FindNotebook(containers).Some? <==> exists c | c in containers :: c.name == "notebook"
  {
    if containers != [] {
      NotebookFound(containers[1..]);
      assert containers == [containers[0]] + containers[1..];
    }
  }

  /** Which objects a state is read from: nothing may be missing, and the numbers and groups must be readable. */
  lemma RecreateNeeds(f: Formats, config: Config, username: string, objects: LabObjects, phase: PodPhase)
    ensures Recreate(f, config, username, objects, phase).Some? <==>
              && (exists c | c in objects.containers :: c.name == "notebook")
              && var env := objects.env;
                 && "CPU_LIMIT" in env && f.parseCpu(env["CPU_LIMIT"]).Some? && "MEM_LIMIT" in env && ParseNat(env["MEM_LIMIT"]).Some?
                 && "CPU_GUARANTEE" in env && f.parseCpu(env["CPU_GUARANTEE"]).Some?
                 && "MEM_GUARANTEE" in env && ParseNat(env["MEM_GUARANTEE"]).Some?
                 && "JUPYTER_IMAGE_SPEC" in env && "JUPYTERHUB_SERVICE_PREFIX" in env
                 && f.parseGroups(Lookup(objects.annotations, "nublado.lsst.io/user-groups").GetOr("[]")).Some?
                 && (objects.quota.Some? ==>
                       var limits := objects.quota.value;
                       && "limits.cpu" in limits && f.parseCpu(limits["limits.cpu"]).Some?
                       && "limits.memory" in limits && ParseNat(limits["limits.memory"]).Some?)
  {
    hide ParseNat, FindNotebook;
    NotebookFound(objects.containers);
  }

  /** What is read from the objects, each thing from its own place. */
  lemma RecreateReads(f: Formats, config: Config, username: string, objects: LabObjects, phase: PodPhase)
    returns (k: nat)
    requires Recreate(f, config, username, objects, phase).Some?
    ensures k < |objects.containers| && objects.containers[k].name == "notebook"
    ensures forall j | 0 <= j < k :: objects.containers[j].name != "notebook"
    ensures var s, env := Recreate(f, config, username, objects, phase).value, objects.env;
            && s.user.username == username && s.user.name == Lookup(objects.annotations, "nublado.lsst.io/user-name")
            && s.user.uid == objects.containers[k].runAsUser && s.user.gid == objects.containers[k].runAsGroup
            && Some(s.user.groups) == f.parseGroups(Lookup(objects.annotations, "nublado.lsst.io/user-groups").GetOr("[]"))
            && Some(s.options.image) == Lookup(env, "JUPYTER_IMAGE_SPEC") && s.options.size == SizeFor(config.sizes, s.resources)
            && (s.options.enableDebug <==> Lookup(env, "DEBUG") == Some("TRUE"))
            && (s.options.resetUserEnv <==> Lookup(env, "RESET_USER_ENV") == Some("TRUE"))
    ensures var s, env := Recreate(f, config, username, objects, phase).value, objects.env;
            && "JUPYTERHUB_SERVICE_PREFIX" in env && "CPU_LIMIT" in env && "MEM_LIMIT" in env && "CPU_GUARANTEE" in env && "MEM_GUARANTEE" in env
            && s.internalUrl == Some("http://lab." + config.namespacePrefix + "-" + username + ":8888" + env["JUPYTERHUB_SERVICE_PREFIX"])
            && Some(s.resources.limits.cpu) == f.parseCpu(env["CPU_LIMIT"]) && Some(s.resources.limits.memory) == ParseNat(env["MEM_LIMIT"])
            && Some(s.resources.requests.cpu) == f.parseCpu(env["CPU_GUARANTEE"])
            && Some(s.resources.requests.memory) == ParseNat(env["MEM_GUARANTEE"])
    ensures var s := Recreate(f, config, username, objects, phase).value;
            && (s.status == Pending <==> phase == PhasePending) && (s.status == Running <==> phase == PhaseRunning)
            && (s.status == Failed <==> phase == PhaseUnknown) && s.status != Terminating
            && (s.quota.Some? <==> objects.quota.Some?)
            && (s.quota.Some? ==>
                  var limits := objects.quota.value;
                  && "limits.cpu" in limits && "limits.memory" in limits
                  && Some(s.quota.value.cpu) == f.parseCpu(limits["limits.cpu"])
                  && Some(s.quota.value.memory) == ParseNat(limits["limits.memory"]))
  {
    hide ParseNat, FindNotebook, SizeFor;
    k := FirstNotebook(objects.containers);
  }

  /** `recreate_lab_state`, from whatever objects were found. */
  method RecreateLabState(f: Formats, config: Config, username: string, found: Option<LabObjects>, phase: PodPhase)
    returns (state: Option<LabState>)
    ensures state == if found.None? then None else Recreate(f, config, username, found.value, phase)
  {
    if found.None? {
      return None;
    }
    var objects := found.value;
    var container := None;
    for k := 0 to |objects.containers|
      invariant container.None? && FindNotebook(objects.containers) == FindNotebook(objects.containers[k..])
    {
      if objects.containers[k].name == NOTEBOOK {
        container := Some(objects.containers[k]);
        break;
      }
    }
    if container.None? {
      return None;
    }
    var env := objects.env;
    var limits := ReadQuantity(f, env, "CPU_LIMIT", "MEM_LIMIT");
    var requests := ReadQuantity(f, env, "CPU_GUARANTEE", "MEM_GUARANTEE");
    var image := Lookup(env, "JUPYTER_IMAGE_SPEC");
    var groups := ReadGroups(f, objects.annotations);
    var url := InternalUrl(config, username, env);
    var quota := ReadQuota(f, objects.quota);
    if limits.None? || requests.None? || image.None? || groups.None? || url.None? || quota.None? {
      return None;
    }
    var resources := Resources(limits.value, requests.value);
    var size := RecreateSize(config.sizes, resources);
    state := Some(LabState(
      UserInfo(username, Lookup(objects.annotations, NAME_ANNOTATION), container.value.runAsUser, container.value.runAsGroup, groups.value),
      Options(image.value, size, Flag(env, "DEBUG"), Flag(env, "RESET_USER_ENV")),
      FromPhase(phase), Some(url.value), resources, quota.value));
  }

  // ----- the round trip

  /** The environment from the hub does not set an option that the user did not ask for. */
  predicate HubAgrees(spec: Spec) {
    && (Flag(spec.env, "DEBUG") ==> spec.enableDebug)
    && (Flag(spec.env, "RESET_USER_ENV") ==> spec.resetUserEnv)
  }

  /** The numbers of CPUs of a size are read back as they were. */
  predicate CpusAgree(f: Formats, resources: Resources) {
    f.ReadsCpu(resources.limits.cpu) && f.ReadsCpu(resources.requests.cpu)
  }

  /** The groups read back as they were, and the configured annotations leave them and the user's name readable. */
  predicate AnnotationsAgree(f: Formats, config: Config, user: User) {
    && (if GROUPS_ANNOTATION in config.extraAnnotations then
          f.parseGroups(config.extraAnnotations[GROUPS_ANNOTATION]) == Some(user.groups)
        else
          f.parseGroups(f.printGroups(user.groups)) == Some(user.groups))
    && (NAME_ANNOTATION in config.extraAnnotations ==> user.name == Some(config.extraAnnotations[NAME_ANNOTATION]))
  }

  /** The quota in bytes is the quota in gigabytes, and its number of CPUs reads back as it was. */
  predicate QuotaAgrees(f: Formats, user: User) {
    user.quota.Some? ==> user.quota.value.memoryBytes == Bytes(user.quota.value.memory) && f.ReadsCpu(user.quota.value.cpu)
  }

  lemma QuotaComesBack(f: Formats, user: User)
    ensures ReadQuota(f, BuildQuota(f, user)) ==
            Some(if user.quota.None? then None else Some(Quantity(user.quota.value.cpu, user.quota.value.memoryBytes)))
            <==> QuotaAgrees(f, user)
  {
    if user.quota.Some? {
      ParsePrinted(Bytes(user.quota.value.memory));
      assert "limits.cpu" != "limits.memory";
    }
  }

  lemma AnnotationsHave(f: Formats, config: Config, user: User)
    ensures var annotations := Annotations(f, config, user);
            ReadGroups(f, annotations) == Some(user.groups) && Lookup(annotations, NAME_ANNOTATION) == user.name
            <==> AnnotationsAgree(f, config, user)
  {
    assert NAME_ANNOTATION != GROUPS_ANNOTATION && NAME_ANNOTATION !in ARGO_CD_ANNOTATIONS by {
      assert |NAME_ANNOTATION| == 25 && |GROUPS_ANNOTATION| == 27;
      assert NAME_ANNOTATION[0] == 'n';
    }
  }

  lemma ResourcesComeBack(f: Formats, config: Config, spec: Spec, definition: SizeDefinition, image: Image)
    requires EnvOk(config.env)
    ensures var env := Env(f, config, spec, definition, image);
            && ReadQuantity(f, env, "CPU_LIMIT", "MEM_LIMIT") == Some(definition.resources.limits)
            && ReadQuantity(f, env, "CPU_GUARANTEE", "MEM_GUARANTEE") == Some(definition.resources.requests)
            <==> CpusAgree(f, definition.resources)
  {
    hide Env, PrintNat, ParseNat;
    EnvHas(f, config, spec, definition, image);
    ParsePrinted(definition.resources.limits.memory);
    ParsePrinted(definition.resources.requests.memory);
  }

  /**
   After a restart the state of a lab is read back as it was requested, up to its status and
   its URL, if and only if the hub set no option behind the user's back, no size defined
   before has the same resources, the configured annotations spare the user's, the quota in
   bytes is the quota in gigabytes, and the very numbers and groups that are written are
   read back as they were. The configured environment cannot break it.
   */
  lemma RestartRoundTrip(f: Formats, config: Config, user: User, spec: Spec, definition: SizeDefinition, image: Image, phase: PodPhase)
    requires EnvOk(config.env) && SizesOk(config.sizes)
    requires GetSize(config.sizes, spec.size) == Some(definition) && "JUPYTERHUB_SERVICE_PREFIX" in spec.env
    ensures Recreate(f, config, user.username, Build(f, config, user, spec, definition, image), phase)
            == Some(LabState(
                      UserInfo(user.username, user.name, user.uid, user.gid, user.groups),
                      Options(image.reference, spec.size, spec.enableDebug, spec.resetUserEnv),
                      match phase
                        case PhasePending => Pending
                        case PhaseRunning => Running
                        case PhaseUnknown => Failed
                        case _ => Terminated,
                      Some("http://lab." + config.namespacePrefix + "-" + user.username + ":8888" + spec.env["JUPYTERHUB_SERVICE_PREFIX"]),
                      definition.resources,
                      if user.quota.None? then None else Some(Quantity(user.quota.value.cpu, user.quota.value.memoryBytes))))
            <==>
            && HubAgrees(spec) && NoEarlierTwin(config.sizes, spec.size)
            && AnnotationsAgree(f, config, user) && QuotaAgrees(f, user) && CpusAgree(f, definition.resources)
  {
    hide Env, Annotations, BuildQuota, PrintNat, ParseNat, ReadQuantity, ReadQuota, ReadGroups, SizeFor, NoEarlierTwin,
         AnnotationsAgree, QuotaAgrees, CpusAgree, Bytes;
    var objects := Build(f, config, user, spec, definition, image);
    EnvHas(f, config, spec, definition, image);
    ResourcesComeBack(f, config, spec, definition, image);
    AnnotationsHave(f, config, user);
    QuotaComesBack(f, user);
    SizeComesBack(config.sizes, spec.size);
    assert FindNotebook(objects.containers) == Some(objects.containers[0]);
    assert definition.size == spec.size by {
      var k := SizeFoundAt(config.sizes, spec.size);
    }
  }
}
