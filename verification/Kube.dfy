/** Object references, their encoding as labels and annotations, and the names derived from them. */
module Kube {
  import opened Collections
  import opened Strings

  /** The identity of a Kubernetes object; `kind` is the object's kind name. */
  datatype ObjectRef = ObjectRef(kind: string, name: string, namespace: string)

  /** The address of a stored object. */
  datatype Key = Key(namespace: string, name: string)

  /** How a reconcile ends. */
  datatype ReconcileResult = Done | RequeueAfter(delay: int) | Error

  const LABEL_RESOURCE_KIND := "starboard.resource.kind"
  const LABEL_RESOURCE_NAME := "starboard.resource.name"
  const LABEL_RESOURCE_NAME_HASH := "starboard.resource.name-hash"
  const LABEL_RESOURCE_NAMESPACE := "starboard.resource.namespace"

  predicate IsBuiltInWorkload(controller: Option<string>) {
    controller.Some? &&
    controller.value in ["ReplicaSet", "ReplicationController", "StatefulSet", "DaemonSet", "Job"]
  }

  predicate IsWorkload(kind: string) {
    kind in ["Pod", "Deployment", "ReplicaSet", "ReplicationController", "StatefulSet", "DaemonSet", "Job", "CronJob"]
  }

  predicate IsClusterScopedKind(kind: string) {
    kind in ["ClusterRole", "ClusterRoleBinding", "CustomResourceDefinition", "PodSecurityPolicy"]
  }

  /** The kinds that run pods. */
  lemma WorkloadIff(kind: string)
    ensures IsWorkload(kind) <==>
            || kind == "Pod" || kind == "Deployment" || kind == "ReplicaSet" || kind == "ReplicationController"
            || kind == "StatefulSet" || kind == "DaemonSet" || kind == "Job" || kind == "CronJob"
  {
  }

  lemma ClusterScopedIff(kind: string)
    ensures IsClusterScopedKind(kind) <==>
            || kind == "ClusterRole" || kind == "ClusterRoleBinding" || kind == "CustomResourceDefinition"
            || kind == "PodSecurityPolicy"
  {
  }

  ghost predicate Injective<T(!new)>(f: T -> string) {
    forall x, y :: f(x) == f(y) ==> x == y
  }

  /** The two library functions that names and labels depend on: the hash of a text and the check
      that a text may be used as a label value. */
  datatype Naming = Naming(hash: string -> string, valid: string -> bool) {

    /** What the code takes for granted about the hash: no two texts collide, and its output is
        free of dashes. */
    ghost predicate Faithful() {
      && Injective(hash)
      && forall text :: '-' !in hash(text)
    }

    /** The name under which the report of one container is stored. */
    function ContainerReportName(kind: string, name: string, container: string): string {
      var plain := Lower(kind) + "-" + name + "-" + container;
      if valid(plain) then plain else Lower(kind) + "-" + hash(name + "-" + container)
    }

    /** The name under which the configuration audit report of one resource is stored. */
    function ResourceReportName(kind: string, name: string): string {
      var plain := Lower(kind) + "-" + name;
      if valid(plain) then plain else Lower(kind) + "-" + hash(name)
    }

    /** The selector that finds objects belonging to `ref`. */
    function RefToLabels(ref: ObjectRef): map<string, string> {
      map[LABEL_RESOURCE_KIND := ref.kind, LABEL_RESOURCE_NAMESPACE := ref.namespace] +
      if valid(ref.name) then map[LABEL_RESOURCE_NAME := ref.name]
      else map[LABEL_RESOURCE_NAME_HASH := hash(ref.name)]
    }
  }

  lemma DropPrefix(prefix: string, a: string, b: string)
    requires prefix + a == prefix + b
    ensures a == b
  {
    assert (prefix + a)[|prefix|..] == a;
    assert (prefix + b)[|prefix|..] == b;
  }

  /** What follows the kind in a report name. */
  function NameTail(n: Naming, kind: string, text: string): string {
    if n.valid(Lower(kind) + "-" + text) then text else n.hash(text)
  }

  lemma NameHasTail(n: Naming, kind: string, name: string, container: string)
    ensures n.ContainerReportName(kind, name, container)
            == Lower(kind) + "-" + NameTail(n, kind, name + "-" + container)
  {
    assert Lower(kind) + "-" + name + "-" + container == Lower(kind) + "-" + (name + "-" + container);
  }

  lemma SplitAtDash(p: string, q: string, x: string, y: string)
    requires '-' !in p && '-' !in q && p + "-" + x == q + "-" + y
    ensures p == q && x == y
  {
    var s, t := p + "-" + x, q + "-" + y;
    assert s[|p|] == '-' && t[|q|] == '-';
    assert |p| == |q| by {
      assert forall i :: 0 <= i < |p| ==> s[i] == p[i];
      assert forall i :: 0 <= i < |q| ==> t[i] == q[i];
    }
    assert s[..|p|] == p && t[..|q|] == q && s[|p| + 1..] == x && t[|q| + 1..] == y;
  }

  lemma LowerHasNoDash(kind: string)
    requires '-' !in kind
    ensures '-' !in Lower(kind)
  {
    assert forall c :: LowerChar(c) == '-' ==> c == '-';
  }

  /** Exactly when two containers get the same report name: the kinds agree up to case, and so do the
      owner's name, a dash and the container's name taken together, whichever mix of plain and hashed names
      there is. */
  lemma SameReportNameIff(n: Naming, kind: string, a: string, c: string, kind': string, b: string, d: string)
    requires n.Faithful() && '-' !in kind && '-' !in kind'
    ensures n.ContainerReportName(kind, a, c) == n.ContainerReportName(kind', b, d)
            <==> Lower(kind) == Lower(kind') && a + "-" + c == b + "-" + d
  {
    var s, t := a + "-" + c, b + "-" + d;
    NameHasTail(n, kind, a, c);
    NameHasTail(n, kind', b, d);
    LowerHasNoDash(kind);
    LowerHasNoDash(kind');
    assert s[|a|] == '-' && t[|b|] == '-';
    if n.ContainerReportName(kind, a, c) == n.ContainerReportName(kind', b, d) {
      SplitAtDash(Lower(kind), Lower(kind'), NameTail(n, kind, s), NameTail(n, kind', t));
    }
  }

  /** The reports of one owner never overwrite each other, whichever mix of plain and hashed names
      its containers get. */
  lemma ContainerReportNamesDistinct(n: Naming, kind: string, name: string, c: string, d: string)
    requires n.Faithful()
    requires n.ContainerReportName(kind, name, c) == n.ContainerReportName(kind, name, d)
    ensures c == d
  {
    SameKindReportNameIff(n, kind, name, c, name, d);
    DropPrefix(name + "-", c, d);
  }

  /** For one kind the condition needs nothing of the kind. */
  lemma SameKindReportNameIff(n: Naming, kind: string, a: string, c: string, b: string, d: string)
    requires n.Faithful()
    ensures n.ContainerReportName(kind, a, c) == n.ContainerReportName(kind, b, d) <==> a + "-" + c == b + "-" + d
  {
    var s, t := a + "-" + c, b + "-" + d;
    NameHasTail(n, kind, a, c);
    NameHasTail(n, kind, b, d);
    assert s[|a|] == '-' && t[|b|] == '-';
    if n.ContainerReportName(kind, a, c) == n.ContainerReportName(kind, b, d) {
      DropPrefix(Lower(kind) + "-", NameTail(n, kind, s), NameTail(n, kind, t));
    }
  }

  lemma ResourceNameHasTail(n: Naming, kind: string, name: string)
    ensures n.ResourceReportName(kind, name) == Lower(kind) + "-" + NameTail(n, kind, name)
  {
  }

  /** One of the names is plain and happens to be the hash that stands for the other. */
  predicate HashOfOther(n: Naming, kind: string, a: string, kind': string, b: string) {
    n.valid(Lower(kind) + "-" + a) && !n.valid(Lower(kind') + "-" + b) && a == n.hash(b)
  }

  /** Exactly when two resources get the same report name: the kinds agree up to case, and the names are equal or
      one is the hash that stands for the other. */
  lemma SameResourceNameIff(n: Naming, kind: string, a: string, kind': string, b: string)
    requires n.Faithful() && '-' !in kind && '-' !in kind'
    ensures n.ResourceReportName(kind, a) == n.ResourceReportName(kind', b)
            <==> && Lower(kind) == Lower(kind')
                 && (|| a == b
                     || (n.valid(Lower(kind) + "-" + a) && !n.valid(Lower(kind') + "-" + b) && a == n.hash(b))
                     || (n.valid(Lower(kind') + "-" + b) && !n.valid(Lower(kind) + "-" + a) && b == n.hash(a)))
  {
    ResourceNameHasTail(n, kind, a);
    ResourceNameHasTail(n, kind', b);
    LowerHasNoDash(kind);
    LowerHasNoDash(kind');
    if n.ResourceReportName(kind, a) == n.ResourceReportName(kind', b) {
      SplitAtDash(Lower(kind), Lower(kind'), NameTail(n, kind, a), NameTail(n, kind', b));
    }
  }

  /** A name that may be a label is used as it is. */
  lemma DeploymentName(n: Naming)
    ensures n.valid("deployment-web") ==> n.ResourceReportName("Deployment", "web") == "deployment-web"
    ensures !n.valid("deployment-web") ==> n.ResourceReportName("Deployment", "web") == "deployment-" + n.hash("web")
    ensures n.valid("deployment-web-app") ==> n.ContainerReportName("Deployment", "web", "app") == "deployment-web-app"
    ensures !n.valid("deployment-web-app") ==>
              n.ContainerReportName("Deployment", "web", "app") == "deployment-" + n.hash("web-app")
  {
    assert Lower("Deployment") == "deployment";
    assert "deployment" + "-" == "deployment-";
    assert "deployment-" + "web" == "deployment-web";
    assert "deployment-web" + "-" + "app" == "deployment-web-app";
    assert "web" + "-" + "app" == "web-app";
  }

  /** Across owners names do clash: a dash can move from the owner's name to the container's. */
  lemma ContainerReportNamesClash(n: Naming, kind: string, a: string, b: string, c: string)
    ensures n.ContainerReportName(kind, a, b + "-" + c) == n.ContainerReportName(kind, a + "-" + b, c)
    ensures a != a + "-" + b
  {
    assert a + "-" + (b + "-" + c) == (a + "-" + b) + "-" + c;
    NameHasTail(n, kind, a, b + "-" + c);
    NameHasTail(n, kind, a + "-" + b, c);
    assert |a| < |a + "-" + b|;
  }

  /** The part of an object's metadata that carries its owner. */
  class ObjectMeta {
    var labels: map<string, string>
    var annotations: map<string, string>

    constructor (labels: map<string, string>, annotations: map<string, string>)
      ensures this.labels == labels && this.annotations == annotations
    {
      this.labels, this.annotations := labels, annotations;
    }

    /** Adds the labels, and for a name that cannot be a label the annotation, that identify `ref`. */
    method AddOwner(n: Naming, ref: ObjectRef)
      modifies this
      ensures labels == EncodedLabels(n, ref, old(labels))
      ensures annotations == EncodedAnnotations(n, ref, old(annotations))
    {
      labels := labels[LABEL_RESOURCE_KIND := ref.kind];
      labels := labels[LABEL_RESOURCE_NAMESPACE := ref.namespace];
      EncodedInSteps(n, ref, old(labels));
      if n.valid(ref.name) {
        labels := labels[LABEL_RESOURCE_NAME := ref.name];
      } else {
        labels := labels[LABEL_RESOURCE_NAME_HASH := n.hash(ref.name)];
        annotations := annotations[LABEL_RESOURCE_NAME := ref.name];
      }
    }
  }

  function EncodedLabels(n: Naming, ref: ObjectRef, labels: map<string, string>): map<string, string> {
    labels + n.RefToLabels(ref)
  }

  function EncodedAnnotations(n: Naming, ref: ObjectRef, annotations: map<string, string>): map<string, string> {
    if n.valid(ref.name) then annotations else annotations[LABEL_RESOURCE_NAME := ref.name]
  }

  lemma EncodedInSteps(n: Naming, ref: ObjectRef, labels: map<string, string>)
    ensures var owner := labels[LABEL_RESOURCE_KIND := ref.kind][LABEL_RESOURCE_NAMESPACE := ref.namespace];
            EncodedLabels(n, ref, labels)
            == if n.valid(ref.name) then owner[LABEL_RESOURCE_NAME := ref.name]
               else owner[LABEL_RESOURCE_NAME_HASH := n.hash(ref.name)]
  {
    LabelsDistinct();
  }

  datatype DecodeError = KindMissing | NameMissing

  /** The owner recorded in an object's metadata. A missing namespace label reads as the empty string. */
  function RefFromMeta(labels: map<string, string>, annotations: map<string, string>): Result<ObjectRef, DecodeError> {
    if LABEL_RESOURCE_KIND !in labels then Err(KindMissing)
    else if LABEL_RESOURCE_NAME !in labels && LABEL_RESOURCE_NAME !in annotations then Err(NameMissing)
    else
      var name := if LABEL_RESOURCE_NAME in labels then labels[LABEL_RESOURCE_NAME]
                  else annotations[LABEL_RESOURCE_NAME];
      var namespace := if LABEL_RESOURCE_NAMESPACE in labels then labels[LABEL_RESOURCE_NAMESPACE] else "";
      Ok(ObjectRef(labels[LABEL_RESOURCE_KIND], name, namespace))
  }

  /** What is decoded, and which metadata is refused. */
  lemma DecodedIs(labels: map<string, string>, annotations: map<string, string>)
    ensures var r, kind, name := RefFromMeta(labels, annotations), "starboard.resource.kind", "starboard.resource.name";
            && (r == Err(KindMissing) <==> kind !in labels)
            && (r == Err(NameMissing) <==> kind in labels && name !in labels && name !in annotations)
            && (r.Ok? ==>
                  && r.value.kind == labels[kind]
                  && r.value.name == (if name in labels then labels[name] else annotations[name])
                  && r.value.namespace
                     == if "starboard.resource.namespace" in labels then labels["starboard.resource.namespace"] else "")
  {
  }

  predicate Matches(selector: map<string, string>, labels: map<string, string>) {
    forall k :: k in selector ==> k in labels && labels[k] == selector[k]
  }

  lemma LabelsDistinct()
    ensures LABEL_RESOURCE_KIND != LABEL_RESOURCE_NAME
    ensures LABEL_RESOURCE_KIND != LABEL_RESOURCE_NAME_HASH
    ensures LABEL_RESOURCE_KIND != LABEL_RESOURCE_NAMESPACE
    ensures LABEL_RESOURCE_NAME != LABEL_RESOURCE_NAME_HASH
    ensures LABEL_RESOURCE_NAME != LABEL_RESOURCE_NAMESPACE
    ensures LABEL_RESOURCE_NAME_HASH != LABEL_RESOURCE_NAMESPACE
  {
    assert LABEL_RESOURCE_KIND[19] == 'k' && LABEL_RESOURCE_NAME[19] == 'n';
    assert LABEL_RESOURCE_NAME_HASH[19] == 'n' && LABEL_RESOURCE_NAMESPACE[19] == 'n';
    assert |LABEL_RESOURCE_NAME| == 23 && |LABEL_RESOURCE_NAME_HASH| == 28 && |LABEL_RESOURCE_NAMESPACE| == 28;
    assert LABEL_RESOURCE_NAME_HASH[23] == '-' && LABEL_RESOURCE_NAMESPACE[23] == 's';
  }

  /** What each label and the annotation hold. */
  lemma OwnerLabels(n: Naming, ref: ObjectRef, labels: map<string, string>, annotations: map<string, string>)
    ensures var encoded := EncodedLabels(n, ref, labels);
            && "starboard.resource.kind" in encoded && encoded["starboard.resource.kind"] == ref.kind
            && "starboard.resource.namespace" in encoded && encoded["starboard.resource.namespace"] == ref.namespace
            && (n.valid(ref.name) ==>
                  "starboard.resource.name" in encoded && encoded["starboard.resource.name"] == ref.name)
            && (!n.valid(ref.name) ==>
                  && "starboard.resource.name-hash" in encoded
                  && encoded["starboard.resource.name-hash"] == n.hash(ref.name))
    ensures var encoded := EncodedAnnotations(n, ref, annotations);
            !n.valid(ref.name) ==>
              "starboard.resource.name" in encoded && encoded["starboard.resource.name"] == ref.name
  {
    LabelsDistinct();
  }

  /** Decoding what was encoded gives back the owner exactly when no older name label is left behind
      to shadow the annotation of a name that is not a valid label. */
  lemma OwnerRoundTrip(n: Naming, ref: ObjectRef, labels: map<string, string>, annotations: map<string, string>)
    ensures
      RefFromMeta(EncodedLabels(n, ref, labels), EncodedAnnotations(n, ref, annotations)) == Ok(ref)
      <==> n.valid(ref.name) || LABEL_RESOURCE_NAME !in labels || labels[LABEL_RESOURCE_NAME] == ref.name
  {
    LabelsDistinct();
  }

  /** On metadata without an earlier owner, the selector of a reference finds exactly the objects
      encoded for that reference. */
  lemma SelectorFindsOwner(n: Naming, ref: ObjectRef, wanted: ObjectRef, labels: map<string, string>)
    requires Injective(n.hash)
    requires LABEL_RESOURCE_NAME !in labels && LABEL_RESOURCE_NAME_HASH !in labels
    ensures Matches(n.RefToLabels(wanted), EncodedLabels(n, ref, labels)) <==> ref == wanted
  {
    LabelsDistinct();
    var selector, encoded := n.RefToLabels(wanted), EncodedLabels(n, ref, labels);
    if Matches(selector, encoded) {
      assert LABEL_RESOURCE_KIND in selector && LABEL_RESOURCE_NAMESPACE in selector;
      assert if n.valid(wanted.name) then LABEL_RESOURCE_NAME in selector else LABEL_RESOURCE_NAME_HASH in selector;
    }
  }
}
