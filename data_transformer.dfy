/** The transform hook (`IDataTransformer`) and its default, identity
    implementation (`DataTransformer`). */
module DataTransformer {
  import opened Wrappers
  import opened DotNetString

  /** The shape of `IDataTransformer`: a transform applied to every string
      before it is written, its reverse applied to every string read back,
      and the asynchronous twin of each. A `Task<string>` is modelled by the
      string it completes with. */
  datatype Hook = Hook(
    transform: NString -> NString,
    transformAsync: NString -> NString,
    untransform: NString -> NString,
    untransformAsync: NString -> NString)
  {
    /** The interface's documented contract: `Untransform` (and its twin)
        reverses an original transformation. */
    ghost predicate Reverses() {
      && (forall s :: untransform(transform(s)) == s)
      && (forall s :: untransformAsync(transformAsync(s)) == s)
    }

    /** Each asynchronous member yields what its synchronous twin returns. */
    ghost predicate Coherent() {
      && (forall s :: transformAsync(s) == transform(s))
      && (forall s :: untransformAsync(s) == untransform(s))
    }

    /** A non-null string is transformed to a non-null string. */
    ghost predicate PreservesNonNull() {
      forall v: NString :: v.Some? ==> transform(v).Some? && transformAsync(v).Some?
    }
  }

  /** `DataTransformer.Transform`: returns its argument, so `Untransform`
      gives back what was transformed. */
  function Transform(data: NString): (r: NString)
    ensures Untransform(r) == data
  {
    data
  }

  /** `DataTransformer.TransformAsync`: a completed task holding what
      `Transform` returns. */
  function TransformAsync(data: NString): (r: NString)
    ensures r == Transform(data)
  {
    data
  }

  /** `DataTransformer.Untransform`: returns its argument, null included. */
  function Untransform(data: NString): (r: NString)
    ensures r.None? <==> data.None?
    ensures r.Some? ==> r.value == data.value
  {
    data
  }

  /** `DataTransformer.UntransformAsync`: a completed task holding what
      `Untransform` returns. */
  function UntransformAsync(data: NString): (r: NString)
    ensures r == Untransform(data)
  {
    data
  }

  /** `Transform` and `Untransform` are the identity, null included. */
  lemma IdentityOnEveryString(s: NString)
    ensures Transform(s) == s && Untransform(s) == s
  {
  }

  /** The asynchronous twins complete with the values of the synchronous members. */
  lemma AsyncTwinsAgree(s: NString)
    ensures TransformAsync(s) == Transform(s)
    ensures UntransformAsync(s) == Untransform(s)
  {
  }

  /** `Untransform` reverses `Transform`, on both call paths. */
  lemma UntransformReversesTransform(s: NString)
    ensures Untransform(Transform(s)) == s
    ensures UntransformAsync(TransformAsync(s)) == s
  {
  }

  /** The default hook `DataTransformer`, which keeps the interface's
      contract, keeps its twins in step and never produces null from a string. */
  function Default(): (h: Hook)
    ensures h.Reverses() && h.Coherent() && h.PreservesNonNull()
    ensures forall s :: h.untransform(s) == s
  {
    Hook(Transform, TransformAsync, Untransform, UntransformAsync)
  }
}
