/**
 * The decisions behind `#[derive(Yokeable)]` and `#[derive(ZeroCopyFrom)]`: which
 * impl each derive emits for a given type definition, and `replace_lifetime`, the
 * rewrite that gives field types the `'static` lifetime. Token streams are not
 * modelled; an impl is described by its shape and the field types it names.
 */
module YokeDerive {
  import opened Wrappers

  /** `syn::Lifetime`, by its name (`'a`, `'static`). */
  type Lifetime = string

  /**
   * `syn::Type`, with the kinds `replace_lifetime` looks into. Every other kind
   * (slices, tuples, raw pointers, function pointers, trait objects, ...) is
   * `Other`, kept as its tokens.
   */
  datatype Type =
    | Group(elem: Type)
    | Array(elem: Type, len: string)
    | Paren(elem: Type)
    | Reference(lifetime: Option<Lifetime>, mutable: bool, elem: Type)
    | Path(segments: seq<PathSegment>)
    | Other(tokens: string)

  /** `syn::PathSegment` */
  datatype PathSegment = PathSegment(ident: string, arguments: PathArguments)

  /** `syn::PathArguments`: none, `<...>`, or `(...) -> ...` kept as tokens. */
  datatype PathArguments = NoArguments | AngleBracketed(args: seq<GenericArgument>) | Parenthesized(tokens: string)

  /** `syn::GenericArgument`: lifetimes and types; bindings, constraints and consts are `OtherArg`. */
  datatype GenericArgument = LifetimeArg(lt: Lifetime) | TypeArg(ty: Type) | OtherArg(tokens: string)

  const StaticLt: Lifetime := "'static"

  // ---------------------------------------------------------------------------
  // replace_lifetime
  // ---------------------------------------------------------------------------

  /**
   * The type with every lifetime `replace_lifetime` reaches set to `lt`: the element
   * of groups, arrays, parentheses and references; a reference's own lifetime when
   * it is written out (an elided one stays elided); and, in each `<...>` argument
   * list of a path, the lifetime arguments and, recursively, the type arguments.
   */
  function ReplaceLifetime(t: Type, lt: Lifetime): Type
    decreases t
  {
    match t
    case Group(e) => Group(ReplaceLifetime(e, lt))
    case Array(e, n) => Array(ReplaceLifetime(e, lt), n)
    case Paren(e) => Paren(ReplaceLifetime(e, lt))
    case Reference(l, m, e) => Reference(if l.Some? then Some(lt) else None, m, ReplaceLifetime(e, lt))
    case Path(segs) => Path(seq(|segs|, i requires 0 <= i < |segs| => ReplaceInSegment(segs[i], lt)))
    case Other(_) => t
  }

  function ReplaceInSegment(s: PathSegment, lt: Lifetime): PathSegment
    decreases s
  {
    match s.arguments
    case AngleBracketed(args) =>
      PathSegment(s.ident, AngleBracketed(seq(|args|, k requires 0 <= k < |args| => ReplaceInArg(args[k], lt))))
    case _ => s
  }

  function ReplaceInArg(a: GenericArgument, lt: Lifetime): GenericArgument
    decreases a
  {
    match a
    case LifetimeArg(_) => LifetimeArg(lt)
    case TypeArg(ty) => TypeArg(ReplaceLifetime(ty, lt))
    case OtherArg(_) => a
  }

  /**
   * `replace_lifetime` as the source computes it: clone the type, then overwrite
   * its parts in place, walking the path segments and their argument lists with
   * nested loops.
   */
  method CloneAndReplaceLifetime(t: Type, lt: Lifetime) returns (r: Type)
    ensures r == ReplaceLifetime(t, lt)
    decreases t
  {
    match t {
      case Group(e) =>
        var inner := CloneAndReplaceLifetime(e, lt);
        r := Group(inner);
      case Array(e, n) =>
        var inner := CloneAndReplaceLifetime(e, lt);
        r := Array(inner, n);
      case Paren(e) =>
        var inner := CloneAndReplaceLifetime(e, lt);
        r := Paren(inner);
      case Reference(l, m, e) =>
        var inner := CloneAndReplaceLifetime(e, lt);
        r := Reference(if l.Some? then Some(lt) else None, m, inner);
      case Path(original) =>
        var segs := original;
        var i := 0;
        while i < |segs|
          invariant 0 <= i <= |segs| == |original|
          invariant forall j :: 0 <= j < i ==> segs[j] == ReplaceInSegment(original[j], lt)
          invariant segs[i..] == original[i..]
        {
          assert segs[i] == original[i];
          if segs[i].arguments.AngleBracketed? {
            var oargs := segs[i].arguments.args;
            var args := oargs;
            var k := 0;
            while k < |args|
              invariant 0 <= k <= |args| == |oargs|
              invariant forall j :: 0 <= j < k ==> args[j] == ReplaceInArg(oargs[j], lt)
              invariant args[k..] == oargs[k..]
            {
              assert args[k] == oargs[k];
              match args[k] {
                case LifetimeArg(_) =>
                  args := args[k := LifetimeArg(lt)];
                case TypeArg(ty) =>
                  assert oargs[k] < original[i];
                  var ty' := CloneAndReplaceLifetime(ty, lt);
                  args := args[k := TypeArg(ty')];
                case OtherArg(_) =>
              }
              k := k + 1;
            }
            assert args == seq(|oargs|, j requires 0 <= j < |oargs| => ReplaceInArg(oargs[j], lt));
            segs := segs[i := PathSegment(segs[i].ident, AngleBracketed(args))];
          }
          i := i + 1;
        }
        assert segs == seq(|original|, j requires 0 <= j < |original| => ReplaceInSegment(original[j], lt));
        r := Path(segs);
      case Other(_) =>
        r := t;
    }
  }

  // ---------------------------------------------------------------------------
  // Properties of replace_lifetime
  // ---------------------------------------------------------------------------

  /** Replacing twice is replacing once with the second lifetime. */
  lemma {:induction false} ReplaceTwice(t: Type, a: Lifetime, b: Lifetime)
    ensures ReplaceLifetime(ReplaceLifetime(t, a), b) == ReplaceLifetime(t, b)
    decreases t
  {
    match t
    case Group(e) => ReplaceTwice(e, a, b);
    case Array(e, _) => ReplaceTwice(e, a, b);
    case Paren(e) => ReplaceTwice(e, a, b);
    case Reference(_, _, e) => ReplaceTwice(e, a, b);
    case Path(segs) =>
      forall i | 0 <= i < |segs|
        ensures ReplaceInSegment(ReplaceInSegment(segs[i], a), b) == ReplaceInSegment(segs[i], b)
      {
        SegmentReplaceTwice(segs[i], a, b);
      }
    case Other(_) =>
  }

  lemma {:induction false} SegmentReplaceTwice(s: PathSegment, a: Lifetime, b: Lifetime)
    ensures ReplaceInSegment(ReplaceInSegment(s, a), b) == ReplaceInSegment(s, b)
    decreases s
  {
    match s.arguments
    case AngleBracketed(args) =>
      var once := seq(|args|, k requires 0 <= k < |args| => ReplaceInArg(args[k], a));
      forall k | 0 <= k < |args|
        ensures ReplaceInArg(once[k], b) == ReplaceInArg(args[k], b)
      {
        match args[k]
        case TypeArg(ty) => ReplaceTwice(ty, a, b);
        case _ =>
      }
      assert seq(|once|, k requires 0 <= k < |once| => ReplaceInArg(once[k], b))
          == seq(|args|, k requires 0 <= k < |args| => ReplaceInArg(args[k], b));
    case _ =>
  }

  /** `replace_lifetime` is idempotent for a fixed lifetime. */
  lemma ReplaceIdempotent(t: Type, lt: Lifetime)
    ensures ReplaceLifetime(ReplaceLifetime(t, lt), lt) == ReplaceLifetime(t, lt)
  {
    ReplaceTwice(t, lt, lt);
  }

  /**
   * `u` is `t` with at most its lifetimes changed: the same kinds of type, the
   * same mutability, array lengths, identifiers and opaque tokens, and a lifetime
   * written out in exactly the places where `t` writes one.
   */
  predicate SameShape(t: Type, u: Type)
    decreases t
  {
    match t
    case Group(e) => u.Group? && SameShape(e, u.elem)
    case Array(e, n) => u.Array? && u.len == n && SameShape(e, u.elem)
    case Paren(e) => u.Paren? && SameShape(e, u.elem)
    case Reference(l, m, e) =>
      u.Reference? && u.mutable == m && (l.Some? <==> u.lifetime.Some?) && SameShape(e, u.elem)
    case Path(segs) =>
      u.Path? && |u.segments| == |segs|
      && forall i :: 0 <= i < |segs| ==> SegmentSameShape(segs[i], u.segments[i])
    case Other(_) => u == t
  }

  predicate SegmentSameShape(s: PathSegment, v: PathSegment)
    decreases s
  {
    s.ident == v.ident &&
    match s.arguments
    case AngleBracketed(args) =>
      v.arguments.AngleBracketed? && |v.arguments.args| == |args|
      && forall k :: 0 <= k < |args| ==> ArgSameShape(args[k], v.arguments.args[k])
    case _ => v.arguments == s.arguments
  }

  predicate ArgSameShape(a: GenericArgument, b: GenericArgument)
    decreases a
  {
    match a
    case LifetimeArg(_) => b.LifetimeArg?
    case TypeArg(ty) => b.TypeArg? && SameShape(ty, b.ty)
    case OtherArg(_) => b == a
  }

  /**
   * `replace_lifetime` changes lifetimes and nothing else: the rewritten type has
   * the shape of the original, so elided lifetimes stay elided and written ones
   * stay where they were.
   */
  lemma {:induction false} ReplaceKeepsShape(t: Type, lt: Lifetime)
    ensures SameShape(t, ReplaceLifetime(t, lt))
    decreases t
  {
    match t
    case Group(e) => ReplaceKeepsShape(e, lt);
    case Array(e, _) => ReplaceKeepsShape(e, lt);
    case Paren(e) => ReplaceKeepsShape(e, lt);
    case Reference(_, _, e) => ReplaceKeepsShape(e, lt);
    case Path(segs) =>
      forall i | 0 <= i < |segs|
        ensures SegmentSameShape(segs[i], ReplaceInSegment(segs[i], lt))
      {
        SegmentKeepsShape(segs[i], lt);
      }
    case Other(_) =>
  }

  lemma {:induction false} SegmentKeepsShape(s: PathSegment, lt: Lifetime)
    ensures SegmentSameShape(s, ReplaceInSegment(s, lt))
    decreases s
  {
    match s.arguments
    case AngleBracketed(args) =>
      forall k | 0 <= k < |args|
        ensures ArgSameShape(args[k], ReplaceInArg(args[k], lt))
      {
        match args[k]
        case TypeArg(ty) => ReplaceKeepsShape(ty, lt);
        case _ =>
      }
    case _ =>
  }

  /** The lifetimes `replace_lifetime` can reach in a type, in order of appearance. */
  function LifetimesOf(t: Type): seq<Lifetime>
    decreases t
  {
    match t
    case Group(e) => LifetimesOf(e)
    case Array(e, _) => LifetimesOf(e)
    case Paren(e) => LifetimesOf(e)
    case Reference(l, _, e) => (if l.Some? then [l.value] else []) + LifetimesOf(e)
    case Path(segs) => SegmentsLifetimes(segs)
    case Other(_) => []
  }

  function SegmentsLifetimes(segs: seq<PathSegment>): seq<Lifetime>
    decreases segs
  {
    if segs == [] then [] else SegmentLifetimes(segs[0]) + SegmentsLifetimes(segs[1..])
  }

  function SegmentLifetimes(s: PathSegment): seq<Lifetime>
    decreases s
  {
    match s.arguments
    case AngleBracketed(args) => ArgsLifetimes(args)
    case _ => []
  }

  function ArgsLifetimes(args: seq<GenericArgument>): seq<Lifetime>
    decreases args
  {
    if args == [] then [] else ArgLifetimes(args[0]) + ArgsLifetimes(args[1..])
  }

  function ArgLifetimes(a: GenericArgument): seq<Lifetime>
    decreases a
  {
    match a
    case LifetimeArg(l) => [l]
    case TypeArg(ty) => LifetimesOf(ty)
    case OtherArg(_) => []
  }

  /** `n` copies of `lt`. */
  function Repeat(lt: Lifetime, n: nat): (r: seq<Lifetime>)
    ensures |r| == n && forall i :: 0 <= i < n ==> r[i] == lt
  {
    seq(n, _ => lt)
  }

  lemma RepeatConcat(lt: Lifetime, n: nat, m: nat)
    ensures Repeat(lt, n) + Repeat(lt, m) == Repeat(lt, n + m)
  {
  }

  /**
   * After `replace_lifetime`, the type has exactly as many reachable lifetimes as
   * before, and every one of them is `lt`. `ReplaceKeepsShape` says where they are.
   */
  lemma {:induction false} ReplacedLifetimes(t: Type, lt: Lifetime)
    ensures LifetimesOf(ReplaceLifetime(t, lt)) == Repeat(lt, |LifetimesOf(t)|)
    decreases t
  {
    match t
    case Group(e) => ReplacedLifetimes(e, lt);
    case Array(e, _) => ReplacedLifetimes(e, lt);
    case Paren(e) => ReplacedLifetimes(e, lt);
    case Reference(l, _, e) =>
      ReplacedLifetimes(e, lt);
      var own := if l.Some? then [l.value] else [];
      RepeatConcat(lt, |own|, |LifetimesOf(e)|);
    case Path(segs) =>
      SegmentsReplacedLifetimes(segs, lt);
    case Other(_) =>
  }

  lemma {:induction false} SegmentsReplacedLifetimes(segs: seq<PathSegment>, lt: Lifetime)
    ensures SegmentsLifetimes(seq(|segs|, i requires 0 <= i < |segs| => ReplaceInSegment(segs[i], lt)))
         == Repeat(lt, |SegmentsLifetimes(segs)|)
    decreases segs
  {
    var replaced := seq(|segs|, i requires 0 <= i < |segs| => ReplaceInSegment(segs[i], lt));
    if segs != [] {
      SegmentReplacedLifetimes(segs[0], lt);
      SegmentsReplacedLifetimes(segs[1..], lt);
      assert replaced[1..] == seq(|segs[1..]|, i requires 0 <= i < |segs[1..]| => ReplaceInSegment(segs[1..][i], lt));
      RepeatConcat(lt, |SegmentLifetimes(segs[0])|, |SegmentsLifetimes(segs[1..])|);
    }
  }

  lemma {:induction false} SegmentReplacedLifetimes(s: PathSegment, lt: Lifetime)
    ensures SegmentLifetimes(ReplaceInSegment(s, lt)) == Repeat(lt, |SegmentLifetimes(s)|)
    decreases s
  {
    match s.arguments
    case AngleBracketed(args) => ArgsReplacedLifetimes(args, lt);
    case _ =>
  }

  lemma {:induction false} ArgsReplacedLifetimes(args: seq<GenericArgument>, lt: Lifetime)
    ensures ArgsLifetimes(seq(|args|, k requires 0 <= k < |args| => ReplaceInArg(args[k], lt)))
         == Repeat(lt, |ArgsLifetimes(args)|)
    decreases args
  {
    var replaced := seq(|args|, k requires 0 <= k < |args| => ReplaceInArg(args[k], lt));
    if args != [] {
      ArgReplacedLifetimes(args[0], lt);
      ArgsReplacedLifetimes(args[1..], lt);
      assert replaced[1..] == seq(|args[1..]|, k requires 0 <= k < |args[1..]| => ReplaceInArg(args[1..][k], lt));
      RepeatConcat(lt, |ArgLifetimes(args[0])|, |ArgsLifetimes(args[1..])|);
    }
  }

  lemma {:induction false} ArgReplacedLifetimes(a: GenericArgument, lt: Lifetime)
    ensures ArgLifetimes(ReplaceInArg(a, lt)) == Repeat(lt, |ArgLifetimes(a)|)
    decreases a
  {
    match a
    case TypeArg(ty) => ReplacedLifetimes(ty, lt);
    case _ =>
  }

  // ---------------------------------------------------------------------------
  // The derives
  // ---------------------------------------------------------------------------

  /**
   * A `#[...]` attribute on the type: its path, and its arguments when they parse
   * as a single identifier (`Attribute::parse_args::<Ident>`).
   */
  datatype Attribute = Attribute(path: string, ident: Option<string>)

  /**
   * `syn::DeriveInput`, reduced to what the derives look at: the number of type
   * parameters and of lifetime parameters, the attributes, and the field types of
   * each variant (a struct has one variant).
   */
  datatype DeriveInput = DeriveInput(
    name: string,
    typeParams: nat,
    lifetimes: nat,
    attrs: seq<Attribute>,
    variants: seq<seq<Type>>)

  /** Some attribute's arguments are exactly the identifier `name`, whatever the attribute's path. */
  predicate HasIdentAttr(attrs: seq<Attribute>, name: string) {
    exists i :: 0 <= i < |attrs| && attrs[i].ident == Some(name)
  }

  /** The field types, variant by variant, with their lifetimes made `'static`. */
  function StaticFieldTypes(variants: seq<seq<Type>>): (r: seq<seq<Type>>)
    ensures |r| == |variants|
    ensures forall v :: 0 <= v < |r| ==> |r[v]| == |variants[v]|
  {
    seq(|variants|, v requires 0 <= v < |variants| =>
      seq(|variants[v]|, f requires 0 <= f < |variants[v]| => ReplaceLifetime(variants[v][f], StaticLt)))
  }

  /** The impls `#[derive(Yokeable)]` can emit. */
  datatype YokeableImpl =
      /** No lifetime: `Output = Self`, every method the identity, and `IsCovariant`. */
    | SelfOutputImpl
      /** One lifetime: for `Name<'static>`, `Output = Name<'a>`, `transform` returning `self`
          (which compiles only if `'a` is covariant), and `IsCovariant`. */
    | CovariantImpl
      /** One lifetime and manual covariance: `transform_owned` calls `transform_owned` on each
          field at its `'static` type; no `IsCovariant` impl. */
    | ManualCovarianceImpl(fieldTypes: seq<seq<Type>>)

  const YokeableTypeParamsError: string := "derive(Yokeable) does not support type parameters"
  const YokeableLifetimesError: string := "derive(Yokeable) cannot have multiple lifetime parameters"
  const ManualCovarianceAttr: string := "prove_covariance_manually"

  /** `yokeable_derive_impl` */
  function YokeableDerive(input: DeriveInput): (r: Result<YokeableImpl, string>)
    ensures input.typeParams != 0 ==> r == Err(YokeableTypeParamsError)
    ensures input.typeParams == 0 && input.lifetimes == 0 ==> r == Ok(SelfOutputImpl)
    ensures input.typeParams == 0 && input.lifetimes > 1 ==> r == Err(YokeableLifetimesError)
    ensures input.typeParams == 0 && input.lifetimes == 1 ==>
      r.Ok? && (r.value.ManualCovarianceImpl? <==> HasIdentAttr(input.attrs, ManualCovarianceAttr))
    ensures input.typeParams == 0 && input.lifetimes == 1 && !HasIdentAttr(input.attrs, ManualCovarianceAttr) ==>
      r == Ok(CovariantImpl)
    ensures input.typeParams == 0 && input.lifetimes == 1 && HasIdentAttr(input.attrs, ManualCovarianceAttr) ==>
      r == Ok(ManualCovarianceImpl(StaticFieldTypes(input.variants)))
    ensures r.Ok? && r.value.ManualCovarianceImpl? ==> r.value.fieldTypes == StaticFieldTypes(input.variants)
  {
    if input.typeParams != 0 then Err(YokeableTypeParamsError)
    else if input.lifetimes == 0 then Ok(SelfOutputImpl)
    else if input.lifetimes != 1 then Err(YokeableLifetimesError)
    else if HasIdentAttr(input.attrs, ManualCovarianceAttr) then Ok(ManualCovarianceImpl(StaticFieldTypes(input.variants)))
    else Ok(CovariantImpl)
  }

  /** The impls `#[derive(ZeroCopyFrom)]` can emit. */
  datatype ZeroCopyFromImpl =
      /** No lifetime: `ZeroCopyFrom<Name> for Name`, copying (`*this`) or cloning (`this.clone()`). */
    | OwnedImpl(clones: bool)
      /** One lifetime and `cloning_zcf`: `ZeroCopyFrom<Name<'data>> for Name<'static>` by `this.clone()`. */
    | BorrowedCloneImpl
      /** One lifetime: the same impl, built field by field with each field's `zero_copy_from`
          at its `'static` type. */
    | FieldwiseImpl(fieldTypes: seq<seq<Type>>)

  const ZeroCopyFromTypeParamsError: string := "derive(ZeroCopyFrom) does not support type parameters"
  const ZeroCopyFromLifetimesError: string := "derive(ZeroCopyFrom) cannot have multiple lifetime parameters"
  const CloningAttr: string := "cloning_zcf"

  /** `zcf_derive_impl` */
  function ZeroCopyFromDerive(input: DeriveInput): (r: Result<ZeroCopyFromImpl, string>)
    ensures input.typeParams != 0 ==> r == Err(ZeroCopyFromTypeParamsError)
    ensures input.typeParams == 0 && input.lifetimes == 0 ==>
      r == Ok(OwnedImpl(HasIdentAttr(input.attrs, CloningAttr)))
    ensures input.typeParams == 0 && input.lifetimes > 1 ==> r == Err(ZeroCopyFromLifetimesError)
    ensures input.typeParams == 0 && input.lifetimes == 1 ==>
      r.Ok? && (r.value.BorrowedCloneImpl? <==> HasIdentAttr(input.attrs, CloningAttr))
    ensures input.typeParams == 0 && input.lifetimes == 1 && !HasIdentAttr(input.attrs, CloningAttr) ==>
      r == Ok(FieldwiseImpl(StaticFieldTypes(input.variants)))
    ensures r.Ok? && r.value.FieldwiseImpl? ==> r.value.fieldTypes == StaticFieldTypes(input.variants)
  {
    if input.typeParams != 0 then Err(ZeroCopyFromTypeParamsError)
    else
      var hasClone := HasIdentAttr(input.attrs, CloningAttr);
      if input.lifetimes == 0 then Ok(OwnedImpl(hasClone))
      else if input.lifetimes != 1 then Err(ZeroCopyFromLifetimesError)
      else if hasClone then Ok(BorrowedCloneImpl)
      else Ok(FieldwiseImpl(StaticFieldTypes(input.variants)))
  }

  // ---------------------------------------------------------------------------
  // Properties of the derives
  // ---------------------------------------------------------------------------

  /**
   * In the per-field impls every field type names only `'static` lifetimes, and
   * as many of them as the field type had.
   */
  lemma FieldTypesAreStatic(variants: seq<seq<Type>>, v: nat, f: nat)
    requires v < |variants| && f < |variants[v]|
    ensures |StaticFieldTypes(variants)[v]| == |variants[v]|
    ensures LifetimesOf(StaticFieldTypes(variants)[v][f]) == Repeat(StaticLt, |LifetimesOf(variants[v][f])|)
  {
    ReplacedLifetimes(variants[v][f], StaticLt);
  }

  /** Both derives reject a type with type parameters before looking at its lifetimes or attributes. */
  lemma TypeParamsRejectedFirst(input: DeriveInput)
    requires input.typeParams != 0
    ensures YokeableDerive(input).Err? && ZeroCopyFromDerive(input).Err?
    ensures YokeableDerive(input) == YokeableDerive(input.(lifetimes := 0, attrs := []))
    ensures ZeroCopyFromDerive(input) == ZeroCopyFromDerive(input.(lifetimes := 0, attrs := []))
  {
  }

  /** Only an attribute's single identifier matters, not its path: `#[serde(cloning_zcf)]` also selects cloning. */
  lemma AttributePathIgnored(input: DeriveInput, i: nat, otherPath: string)
    requires i < |input.attrs|
    ensures var moved := input.(attrs := input.attrs[i := input.attrs[i].(path := otherPath)]);
            YokeableDerive(moved) == YokeableDerive(input) && ZeroCopyFromDerive(moved) == ZeroCopyFromDerive(input)
  {
    var moved := input.(attrs := input.attrs[i := input.attrs[i].(path := otherPath)]);
    forall name: string ensures HasIdentAttr(moved.attrs, name) == HasIdentAttr(input.attrs, name) {
      if HasIdentAttr(input.attrs, name) {
        var j :| 0 <= j < |input.attrs| && input.attrs[j].ident == Some(name);
        assert moved.attrs[j].ident == Some(name);
      }
      if HasIdentAttr(moved.attrs, name) {
        var j :| 0 <= j < |moved.attrs| && moved.attrs[j].ident == Some(name);
        assert input.attrs[j].ident == Some(name);
      }
    }
  }

  /**
   * The attribute spelled as the derive's documentation shows it,
   * `#[yoke(manually_prove_covariance)]`, is not the one the derive looks for, so a
   * type carrying only it gets the plain covariant impl.
   */
  lemma DocumentedSpellingGivesPlainImpl(name: string, variants: seq<seq<Type>>)
    ensures YokeableDerive(DeriveInput(name, 0, 1, [Attribute("yoke", Some("manually_prove_covariance"))], variants))
         == Ok(CovariantImpl)
  {
    var attrs := [Attribute("yoke", Some("manually_prove_covariance"))];
    assert !HasIdentAttr(attrs, ManualCovarianceAttr) by {
      assert attrs[0].ident != Some(ManualCovarianceAttr) by {
        assert "manually_prove_covariance"[0] != ManualCovarianceAttr[0];
      }
    }
  }

  /** The path type `str`. */
  const StrType: Type := Path([PathSegment("str", NoArguments)])

  /** A reference with an elided lifetime inside a path argument keeps it elided: `Option<&str>` stays as written. */
  lemma ElidedReferenceStaysElided()
    ensures ReplaceLifetime(Path([PathSegment("Option", AngleBracketed([TypeArg(Reference(None, false, StrType))]))]), StaticLt)
         == Path([PathSegment("Option", AngleBracketed([TypeArg(Reference(None, false, StrType))]))])
  {
    assert ReplaceLifetime(StrType, StaticLt) == StrType;
    var arg := TypeArg(Reference(None, false, StrType));
    assert ReplaceInArg(arg, StaticLt) == arg;
    assert ReplaceInSegment(PathSegment("Option", AngleBracketed([arg])), StaticLt)
        == PathSegment("Option", AngleBracketed([arg]));
  }

  /** `Cow<'a, str>` becomes `Cow<'static, str>`. */
  lemma CowBecomesStatic()
    ensures ReplaceLifetime(Path([PathSegment("Cow", AngleBracketed([LifetimeArg("'a"), TypeArg(StrType)]))]), StaticLt)
         == Path([PathSegment("Cow", AngleBracketed([LifetimeArg(StaticLt), TypeArg(StrType)]))])
  {
    assert ReplaceLifetime(StrType, StaticLt) == StrType;
    var args := [LifetimeArg("'a"), TypeArg(StrType)];
    var replaced := seq(|args|, k requires 0 <= k < |args| => ReplaceInArg(args[k], StaticLt));
    assert replaced[0] == LifetimeArg(StaticLt);
    assert replaced[1] == TypeArg(StrType);
    assert replaced == [LifetimeArg(StaticLt), TypeArg(StrType)];
    assert ReplaceInSegment(PathSegment("Cow", AngleBracketed(args)), StaticLt)
        == PathSegment("Cow", AngleBracketed([LifetimeArg(StaticLt), TypeArg(StrType)]));
  }
}
