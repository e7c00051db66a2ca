/** The copy-on-write container of src/lib.rs.
    A `NoStdCow<T, B>` either points at a `B` owned by someone else
    (`Borrowed`) or holds its own `T` (`Owned`). References are modelled as
    the values they point at; the `Borrow<B>` projection of `T`, `T::clone`
    and `T::default` are passed in as functions, since they are the caller's
    code. */
module NostdCow {

  /** The enum itself, variants in declaration order (Borrowed first). */
  datatype NoStdCow<T, B> = Borrowed(b: B) | Owned(v: T)

  /** `core::cmp::Ordering`, the result of `Ord::cmp`. */
  datatype Ordering = Less | Equal | Greater {
    function Reverse(): Ordering {
      match this
      case Less => Greater
      case Equal => Equal
      case Greater => Less
    }
  }

  // ---------------------------------------------------------------------
  // Read access and variant introspection

  /** `Deref::deref`: the logical value viewed as a `B`. */
  function Deref<T, B>(c: NoStdCow<T, B>, borrow: T -> B): B {
    match c
    case Borrowed(b) => b
    case Owned(v) => borrow(v)
  }

  /** `is_owned`: true when `to_mut` would be a no-op. */
  predicate IsOwned<T, B>(c: NoStdCow<T, B>) {
    match c
    case Borrowed(_) => false
    case Owned(_) => true
  }

  /** `is_borrowed`: true when `to_mut` would have to clone. It is the exact
      complement of `is_owned`. */
  predicate IsBorrowed<T, B>(c: NoStdCow<T, B>)
    ensures IsBorrowed(c) <==> !IsOwned(c)
  {
    match c
    case Borrowed(_) => true
    case Owned(_) => false
  }

  lemma DerefOfOwned<T, B>(v: T, borrow: T -> B)
    ensures Deref(Owned(v), borrow) == borrow(v)
  {
  }

  // ---------------------------------------------------------------------
  // Constructors

  /** `Default::default`: an owned `T::default()`. */
  function Default<T, B>(defaultT: T): (r: NoStdCow<T, B>)
    ensures IsOwned(r) && !IsBorrowed(r) && r.v == defaultT
  {
    Owned(defaultT)
  }

  /** `From<&B>::from`: a borrowed view of `value`. */
  function FromRef<T, B>(value: B): (r: NoStdCow<T, B>)
    ensures IsBorrowed(r) && !IsOwned(r) && r.b == value
  {
    Borrowed(value)
  }

  /** Reading a default container gives the projection of `T::default()`. */
  lemma DerefOfDefault<T, B>(defaultT: T, borrow: T -> B)
    ensures Deref(Default(defaultT), borrow) == borrow(defaultT)
  {
  }

  /** Reading a container made from a reference gives that reference back. */
  lemma DerefOfFromRef<T, B>(value: B, borrow: T -> B)
    ensures Deref(FromRef(value), borrow) == value
  {
  }

  // ---------------------------------------------------------------------
  // Owned acquisition on `RefCow<T>`

  /** `RefCow<'a, T>`: the container whose owned and borrowed types coincide,
      the only shape on which `to_mut` and `into_owned` exist. */
  type RefCow<T> = NoStdCow<T, T>

  /** The state `to_mut` leaves behind and the value it hands out a
      reference to: an owned value is kept as it is, a borrowed one is
      replaced by an owned clone. */
  function Upgraded<T>(c: RefCow<T>, clone: T -> T): (RefCow<T>, T) {
    match c
    case Owned(v) => (c, v)
    case Borrowed(r) => var w := clone(r); (Owned(w), w)
  }

  /** `into_owned`: consumes the container and yields the value `to_mut`
      would have handed out on the same state. */
  function IntoOwned<T>(c: RefCow<T>, clone: T -> T): (r: T)
    ensures r == Upgraded(c, clone).1
    ensures IsOwned(c) ==> r == c.v
    ensures IsBorrowed(c) ==> r == clone(c.b)
  {
    match c
    case Owned(v) => v
    case Borrowed(v) => clone(v)
  }

  lemma UpgradedOwnedIsNoOp<T>(v: T, clone: T -> T)
    ensures Upgraded(Owned(v), clone) == (Owned(v), v)
  {
  }

  lemma UpgradedBorrowedClones<T>(r: T, clone: T -> T)
    ensures Upgraded(Borrowed(r), clone) == (Owned(clone(r)), clone(r))
    ensures IsOwned(Upgraded(Borrowed(r), clone).0)
  {
  }

  /** One upgrade reaches a fixed point: the state afterwards is owned, and
      upgrading again changes nothing and hands out the same value. */
  lemma UpgradedIdempotent<T>(c: RefCow<T>, clone: T -> T)
    ensures IsOwned(Upgraded(c, clone).0)
    ensures Upgraded(Upgraded(c, clone).0, clone) == Upgraded(c, clone)
  {
  }

  /** With `Borrow<T> for T` as the identity and a clone that returns an
      equal value, every way of reading a `RefCow` gives the same value. */
  lemma ReadsAgreeOnRefCow<T>(c: RefCow<T>, clone: T -> T)
    requires forall x :: clone(x) == x
    ensures IntoOwned(c, clone) == Deref(c, x => x)
    ensures Deref(Upgraded(c, clone).0, x => x) == Deref(c, x => x)
  {
  }

  /** A `RefCow` whose `to_mut` is a method changing the `state` field in
      place. `clones` counts the calls of `T::clone`, so that "no clone was
      performed" can be stated. */
  class RefCowCell<T> {
    var state: RefCow<T>
    ghost var clones: nat
    const clone: T -> T

    constructor (init: RefCow<T>, clone: T -> T)
      ensures state == init && this.clone == clone && clones == 0
    {
      state := init;
      this.clone := clone;
      clones := 0;
    }

    /** `to_mut`: clone a borrowed value into the container, then hand out
        the owned value. */
    method ToMut() returns (r: T)
      modifies this
      ensures (state, r) == Upgraded(old(state), clone)
      ensures IsOwned(state) && state.v == r
      ensures IsOwned(old(state)) ==> state == old(state) && clones == old(clones)
      ensures IsBorrowed(old(state)) ==> r == clone(old(state).b) && clones == old(clones) + 1
    {
      match state {
        case Owned(v) =>
          r := v;
        case Borrowed(v) =>
          state := Owned(clone(v));
          clones := clones + 1;
          match state {
            case Borrowed(_) =>
              assert false;
              r := v;
            case Owned(w) =>
              r := w;
          }
      }
    }
  }

  /** Two calls of `to_mut` in a row hand out the same value, and only the
      first may clone. */
  method ToMutTwice<T>(cell: RefCowCell<T>) returns (first: T, second: T)
    modifies cell
    ensures first == second
    ensures cell.state == Owned(first)
    ensures first == IntoOwned(old(cell.state), cell.clone)
    ensures cell.clones == old(cell.clones) + (if IsBorrowed(old(cell.state)) then 1 else 0)
  {
    first := cell.ToMut();
    second := cell.ToMut();
  }

  // ---------------------------------------------------------------------
  // Derived PartialEq and Ord: the variant tag first, then the payload

  /** Derived `PartialEq`: same variant and equal payloads. A borrowed and an
      owned container are never equal, whatever they hold. */
  function Equals<T, B>(x: NoStdCow<T, B>, y: NoStdCow<T, B>,
                        eqT: (T, T) -> bool, eqB: (B, B) -> bool): (r: bool)
    ensures IsBorrowed(x) != IsBorrowed(y) ==> !r
  {
    match (x, y)
    case (Borrowed(p), Borrowed(q)) => eqB(p, q)
    case (Owned(p), Owned(q)) => eqT(p, q)
    case (_, _) => false
  }

  /** Derived `Ord::cmp`: every `Borrowed` sorts before every `Owned`; within
      one variant the payloads are compared. */
  function Compare<T, B>(x: NoStdCow<T, B>, y: NoStdCow<T, B>,
                         cmpT: (T, T) -> Ordering, cmpB: (B, B) -> Ordering): (r: Ordering)
    ensures IsBorrowed(x) && IsOwned(y) ==> r == Less
    ensures IsOwned(x) && IsBorrowed(y) ==> r == Greater
  {
    match (x, y)
    case (Borrowed(p), Borrowed(q)) => cmpB(p, q)
    case (Owned(p), Owned(q)) => cmpT(p, q)
    case (Borrowed(_), Owned(_)) => Less
    case (Owned(_), Borrowed(_)) => Greater
  }

  /** Within one variant the derived `eq` is the payload's own `eq`. */
  lemma EqualsWithinVariant<T, B>(p: B, q: B, s: T, t: T,
                                  eqT: (T, T) -> bool, eqB: (B, B) -> bool)
    ensures Equals(Borrowed(p), Borrowed(q), eqT, eqB) == eqB(p, q)
    ensures Equals(Owned(s), Owned(t), eqT, eqB) == eqT(s, t)
  {
  }

  /** Within one variant the derived `cmp` is the payload's own `cmp`, in the
      same argument order: the order is lexicographic, tag then payload. */
  lemma CompareWithinVariant<T, B>(p: B, q: B, s: T, t: T,
                                   cmpT: (T, T) -> Ordering, cmpB: (B, B) -> Ordering)
    ensures Compare(Borrowed(p), Borrowed(q), cmpT, cmpB) == cmpB(p, q)
    ensures Compare(Owned(s), Owned(t), cmpT, cmpB) == cmpT(s, t)
  {
  }

  /** With the payload types' own equality, the derived equality is
      structural equality of the enum (tag included). */
  lemma EqualsIsStructural<T, B>(x: NoStdCow<T, B>, y: NoStdCow<T, B>,
                                 eqT: (T, T) -> bool, eqB: (B, B) -> bool)
    requires forall p, q :: eqT(p, q) <==> p == q
    requires forall p, q :: eqB(p, q) <==> p == q
    ensures Equals(x, y, eqT, eqB) <==> x == y
  {
  }

  /** Equality is not over the logical value: a borrowed `r` and an owned `v`
      that derefs to `r` still differ. */
  lemma EqualsIsTagSensitive<T, B>(v: T, borrow: T -> B,
                                   eqT: (T, T) -> bool, eqB: (B, B) -> bool)
    ensures Deref(Borrowed(borrow(v)), borrow) == Deref(Owned(v), borrow)
    ensures !Equals(Borrowed(borrow(v)), Owned(v), eqT, eqB)
  {
  }

  /** `Ord` as Rust requires it: `Equal` exactly on equal values,
      antisymmetric and transitive. */
  ghost predicate IsTotalOrder<X(!new)>(cmp: (X, X) -> Ordering) {
    && (forall x, y :: cmp(x, y) == Equal <==> x == y)
    && (forall x, y :: cmp(y, x) == cmp(x, y).Reverse())
    && (forall x, y, z :: cmp(x, y) == Less && cmp(y, z) == Less ==> cmp(x, z) == Less)
  }

  /** The derived order is a total order whenever the payload orders are. */
  lemma CompareIsTotalOrder<T(!new), B(!new)>(cmpT: (T, T) -> Ordering, cmpB: (B, B) -> Ordering)
    requires IsTotalOrder(cmpT) && IsTotalOrder(cmpB)
    ensures IsTotalOrder((x: NoStdCow<T, B>, y: NoStdCow<T, B>) => Compare(x, y, cmpT, cmpB))
  {
  }

  /** Derived `Ord` agrees with derived `PartialEq` when the payload orders
      agree with the payload equalities. */
  lemma CompareAgreesWithEquals<T, B>(x: NoStdCow<T, B>, y: NoStdCow<T, B>,
                                      cmpT: (T, T) -> Ordering, cmpB: (B, B) -> Ordering,
                                      eqT: (T, T) -> bool, eqB: (B, B) -> bool)
    requires forall p, q :: cmpT(p, q) == Equal <==> eqT(p, q)
    requires forall p, q :: cmpB(p, q) == Equal <==> eqB(p, q)
    ensures Compare(x, y, cmpT, cmpB) == Equal <==> Equals(x, y, eqT, eqB)
  {
  }
}
