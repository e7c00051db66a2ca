/** The conversions of src/alloc_impls.rs between `NoStdCow` and the
    allocator-backed `alloc::borrow::Cow`. For `Cow<'a, B>` the owned type
    is `<B as ToOwned>::Owned`; here it is the type parameter `O`. Both
    directions only re-tag the variant and keep the payload. */
module AllocImpls {
  import N = NostdCow

  /** `alloc::borrow::Cow<'a, B>`, with its owned type made explicit. */
  datatype Cow<B, O> = Borrowed(b: B) | Owned(o: O)

  /** `from_std_cow`: `Cow::Borrowed(b)` becomes `Borrowed(b)` and
      `Cow::Owned(o)` becomes `Owned(o)`. */
  function FromStdCow<B, O>(cow: Cow<B, O>): (r: N.NoStdCow<O, B>)
    ensures N.IsBorrowed(r) <==> cow.Borrowed?
    ensures N.IsBorrowed(r) ==> r.b == cow.b
    ensures N.IsOwned(r) ==> r.v == cow.o
  {
    match cow
    case Borrowed(b) => N.Borrowed(b)
    case Owned(o) => N.Owned(o)
  }

  /** `into_std_cow`: the inverse of `from_std_cow`. */
  function IntoStdCow<B, O>(c: N.NoStdCow<O, B>): (r: Cow<B, O>)
    ensures FromStdCow(r) == c
  {
    match c
    case Borrowed(b) => Borrowed(b)
    case Owned(o) => Owned(o)
  }

  /** `From<Cow> for NoStdCow`: delegates to `from_std_cow`. */
  function NoStdCowFromCow<B, O>(value: Cow<B, O>): (r: N.NoStdCow<O, B>)
    ensures IntoStdCow(r) == value
  {
    FromStdCow(value)
  }

  /** `From<NoStdCow> for Cow`, calling `into_std_cow` (the source names a
      `to_std_cow` that does not exist). */
  function CowFromNoStdCow<B, O>(value: N.NoStdCow<O, B>): (r: Cow<B, O>)
    ensures NoStdCowFromCow(r) == value
  {
    IntoStdCow(value)
  }

  /** `into_std_cow` keeps the variant and the payload. */
  lemma IntoStdCowRetags<B, O>(c: N.NoStdCow<O, B>)
    ensures IntoStdCow(c).Borrowed? <==> N.IsBorrowed(c)
    ensures N.IsBorrowed(c) ==> IntoStdCow(c) == Borrowed(c.b)
    ensures N.IsOwned(c) ==> IntoStdCow(c) == Owned(c.v)
  {
  }

  /** Round trip from the `NoStdCow` side. */
  lemma NoStdCowRoundTrip<B, O>(c: N.NoStdCow<O, B>)
    ensures FromStdCow(IntoStdCow(c)) == c
    ensures NoStdCowFromCow(CowFromNoStdCow(c)) == c
  {
  }

  /** Round trip from the `Cow` side. */
  lemma CowRoundTrip<B, O>(w: Cow<B, O>)
    ensures IntoStdCow(FromStdCow(w)) == w
    ensures CowFromNoStdCow(NoStdCowFromCow(w)) == w
  {
  }

  /** The `From` impls are the named conversions. */
  lemma FromImplsAreConversions<B, O>(c: N.NoStdCow<O, B>, w: Cow<B, O>)
    ensures NoStdCowFromCow(w) == FromStdCow(w)
    ensures CowFromNoStdCow(c) == IntoStdCow(c)
  {
  }
}
