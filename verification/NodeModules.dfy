/**
 The data a NodeModulesConfig (NMC) holds about one node, and the worker pods that act on it
 (api/v1beta1/nodemodulesconfig_types.go, internal/pod/workerpodmanager.go).
 */
module NodeModules {
  import opened Basics

  /**
   A ModuleConfig as its YAML document sees it: four fields that are always written, and the
   fields tagged `omitempty`, held by their path, that are written only when non-empty.
   */
  datatype Config = Config(
    kernelVersion: string,
    containerImage: string,
    imagePullPolicy: string,
    insecurePull: bool,
    optional: map<string, string>)

  const ZERO_CONFIG := Config("", "", "", false, map[])

  /**
   Decoding a document into an existing struct: written fields are replaced, and the fields the
   document omits keep the value the target had.
   */
  function Decode(target: Config, doc: Config): Config {
    doc.(optional := target.optional + doc.optional)
  }

  lemma DecodeIntoZeroIsExact(doc: Config)
    ensures Decode(ZERO_CONFIG, doc) == doc
  {
    assert map[] + doc.optional == doc.optional;
  }

  lemma DecodeIsIdempotent(target: Config, doc: Config)
    ensures Decode(Decode(target, doc), doc) == Decode(target, doc)
  {
    assert (target.optional + doc.optional) + doc.optional == target.optional + doc.optional;
  }

  /** Decoding loses the target exactly when every omitted-if-empty field it had is written again. */
  lemma DecodeExactIff(target: Config, doc: Config)
    ensures Decode(target, doc) == doc <==> target.optional.Keys <= doc.optional.Keys
  {
    assert (target.optional + doc.optional).Keys == target.optional.Keys + doc.optional.Keys;
    if target.optional.Keys <= doc.optional.Keys {
      assert target.optional + doc.optional == doc.optional;
    } else {
      assert Decode(target, doc).optional.Keys != doc.optional.Keys;
    }
  }

  datatype Item = Item(
    key: Key,
    secret: Option<string>,
    serviceAccount: string,
    tolerations: seq<string>,
    version: string)

  datatype ModuleSpec = ModuleSpec(item: Item, config: Config)

  datatype ModuleStatus = ModuleStatus(item: Item, config: Config, bootId: string)

  function SpecKey(s: ModuleSpec): Key { s.item.key }

  function StatusKey(s: ModuleStatus): Key { s.item.key }

  datatype Action = Load | Unload

  datatype Phase = Pending | Running | Succeeded | Failed | Unknown

  /** An annotation as the decoder finds it. */
  datatype Document<T> = Document(content: T) | Malformed

  /** What the hash annotation identifies: two pods have equal hashes when their templates agree. */
  datatype Template = Template(action: Action, item: Item, config: Config)

  /**
   A worker pod of one module on the modelled node. Its name is a function of the node and the
   module name, and its namespace is the module's, so on one node the API server holds at most
   one pod per module key.
   */
  datatype WorkerPod = WorkerPod(
    phase: Phase,
    restarts: nat,
    template: Template,
    config: Document<Config>,
    tolerations: Document<seq<string>>)

  function PodKey(p: WorkerPod): Key { p.template.item.key }

  predicate IsTerminal(p: WorkerPod) { p.phase == Succeeded || p.phase == Failed }

  function LoaderTemplate(spec: ModuleSpec): Template {
    Template(Load, spec.item, spec.config)
  }

  /** The unloader template carries no module version. */
  function UnloaderTemplate(status: ModuleStatus): Template {
    Template(Unload, status.item.(version := ""), status.config)
  }

  function NewPod(t: Template): WorkerPod {
    WorkerPod(Pending, 0, t, Document(t.config), Document(t.item.tolerations))
  }

  /**
   The node as the reconciler reads it. `admits` holds the toleration lists under which every
   blocking taint is tolerated.
   */
  datatype Node = Node(name: string, bootId: string, ready: bool, admits: set<seq<string>>)

  predicate IsNodeRebooted(node: Node, bootId: string) {
    node.ready && bootId != node.bootId
  }

  predicate IsNodeSchedulable(node: Node, tolerations: seq<string>) {
    tolerations in node.admits
  }

  function WorkerPodName(nodeName: string, moduleName: string): string {
    "kmm-worker-" + nodeName + "-" + moduleName
  }
}
