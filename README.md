# nostd_cow in Dafny

A model of the `nostd_cow` crate: a copy-on-write container `NoStdCow<T, B>`
that needs neither `std` nor `alloc`. A value of it is either `Borrowed(&B)`,
pointing at data someone else owns, or `Owned(T)`, holding its own value.

- `nostd_cow.dfy`, module `NostdCow` (src/lib.rs): the enum as a datatype;
  `Deref`, `IsBorrowed`, `IsOwned`, `Default`, `FromRef` and `IntoOwned` as
  functions; `to_mut` as the method `RefCowCell.ToMut`, which overwrites the
  cell's `state` field. `Upgraded` is the function that specifies it: it gives
  the new state and the value handed out. The derived `PartialEq` and `Ord` are
  `Equals` and `Compare`. They compare the variant first and the payload
  second, using comparators supplied for `T` and `B`.
- `alloc_impls.dfy`, module `AllocImpls` (src/alloc_impls.rs): a mirror
  `Cow<B, O>` of `alloc::borrow::Cow`. `O` stands for `<B as ToOwned>::Owned`.
  The module has `into_std_cow`, `from_std_cow` and the two `From` impls.
- `to_uppercase.dfy`, module `ToUppercaseExample` (the example in the
  documentation of src/lib.rs): the scanning loop as a method. The character
  test and the string upper-casing are parameters. An ASCII instance of them
  proves the two documented assertions.

These are parameters of the model, not parts of it:
- the `Borrow<B>` projection of `T` (`borrow: T -> B`);
- `T::clone` (`clone: T -> T`);
- `T::default()` (`defaultT: T`);
- the comparisons of `T` and `B`;
- `char::is_uppercase` and `str::to_uppercase`.

References are modelled as the values they point at. `RefCowCell` has a
ghost counter `clones` that counts calls of `T::clone`. It is there so that
the model can state "`to_mut` on an owned value performs no clone".

In three places the code disagrees with the crate's own description of
itself or with its other code. The model follows the code.
- src/lib.rs:3 calls the type "extremely similar to `Cow`". But
  `alloc::borrow::Cow` compares through `Deref`, that is by the logical value,
  while the `derive` at src/lib.rs:87 compares the variant tag first and the
  payload second. So a `Borrowed` and an `Owned` container are never equal,
  even when they read as the same value (`EqualsIsTagSensitive`), and every
  `Borrowed` sorts before every `Owned`.
- The `From<NoStdCow> for Cow` impl at src/alloc_impls.rs:45 calls
  `value.to_std_cow()`, but the method defined at src/alloc_impls.rs:13 is
  `into_std_cow`, so this impl does not compile as written.
  `CowFromNoStdCow` models the intended call to `into_std_cow`.
- The type's documentation at src/lib.rs:61-62 names `into_alloc_cow` and
  `from_alloc_cow`, but the methods defined at src/alloc_impls.rs:13 and
  src/alloc_impls.rs:22 are `into_std_cow` and `from_std_cow`.

## Model

| member | source | states |
|---|---|---|
| NostdCow.IsBorrowed | src/lib.rs:106-118 | `is_borrowed` is the exact complement of `is_owned` |
| NostdCow.IsOwned | src/lib.rs:113-118 | `is_owned`: true exactly on `Owned`; its contract is `IsBorrowed`'s ensures, which makes the two exact complements |
| NostdCow.Deref | src/lib.rs:97-102 | `deref`: a pure read of the state; its contract is stated by `DerefOfOwned`, `DerefOfFromRef` and `DerefOfDefault` |
| NostdCow.DerefOfOwned | src/lib.rs:97-102 | `deref` of `Owned(v)` is the borrow projection of `v` |
| NostdCow.DerefOfFromRef | src/lib.rs:97-102 | `deref` of a container built from a reference gives that reference back unchanged |
| NostdCow.DerefOfDefault | src/lib.rs:153-157 | `deref` of the default container is the projection of `T::default()` |
| NostdCow.Default | src/lib.rs:153-157 | `Default` is owned, not borrowed, and holds `T::default()` |
| NostdCow.FromRef | src/lib.rs:159-162 | `From<&B>` is borrowed, not owned, and holds the given reference |
| NostdCow.IntoOwned | src/lib.rs:145-150 | `into_owned` returns the value `to_mut` would hand out on the same state: the held value with no clone if owned, the clone if borrowed |
| NostdCow.Upgraded | src/lib.rs:127-138 | the new state and handed-out value of `to_mut`, against which `RefCowCell.ToMut` and `IntoOwned` are proved; its contract is stated by `UpgradedOwnedIsNoOp`, `UpgradedBorrowedClones` and `UpgradedIdempotent` |
| NostdCow.UpgradedOwnedIsNoOp | src/lib.rs:128-129 | `to_mut` on `Owned(v)` keeps the state and returns `v` |
| NostdCow.UpgradedBorrowedClones | src/lib.rs:130-135 | `to_mut` on `Borrowed(r)` moves to `Owned(clone(r))`, returns that clone, and the state is then owned |
| NostdCow.UpgradedIdempotent | src/lib.rs:127-138 | after one `to_mut` the state is owned, and a second `to_mut` changes nothing and returns the same value |
| NostdCow.ReadsAgreeOnRefCow | src/lib.rs:120-150 | on a `RefCow` with a faithful clone, `into_owned`, `deref` and `deref` after `to_mut` all give the same value |
| NostdCow.RefCowCell.ToMut | src/lib.rs:127-138 | the field is overwritten by the upgraded state, the result is the owned value now held, and a clone is counted exactly when the state was borrowed |
| NostdCow.ToMutTwice | src/lib.rs:127-138 | two `to_mut` calls in a row return the same value, the cell ends owned, and at most the first call clones |
| NostdCow.Equals | src/lib.rs:87-93 | derived `PartialEq`: containers of different variants are never equal |
| NostdCow.EqualsWithinVariant | src/lib.rs:87-93 | within one variant, derived `eq` is the payload's `eq`: `eqB` for two `Borrowed`, `eqT` for two `Owned` |
| NostdCow.EqualsIsStructural | src/lib.rs:87-93 | with the payloads' own equality, derived equality is equality of tag and payload |
| NostdCow.EqualsIsTagSensitive | src/lib.rs:87-93 | a borrowed and an owned container that read as the same value are still unequal |
| NostdCow.Compare | src/lib.rs:87-93 | derived `Ord`: every `Borrowed` is `Less` than every `Owned` (declaration order), and the reverse is `Greater` |
| NostdCow.CompareWithinVariant | src/lib.rs:87-93 | within one variant, derived `cmp` is the payload's `cmp` in the same argument order: `cmpB` for two `Borrowed`, `cmpT` for two `Owned` |
| NostdCow.CompareIsTotalOrder | src/lib.rs:87-93 | derived `Ord` is a total order (equal exactly on equal values, antisymmetric, transitive) whenever the payload orders are |
| NostdCow.CompareAgreesWithEquals | src/lib.rs:87-93 | derived `cmp` returns `Equal` exactly when derived `eq` holds, given payload orders consistent with payload equalities |
| AllocImpls.FromStdCow | src/alloc_impls.rs:22-27 | `from_std_cow` keeps the variant and the payload |
| AllocImpls.IntoStdCow | src/alloc_impls.rs:13-18 | `from_std_cow` undoes `into_std_cow` |
| AllocImpls.IntoStdCowRetags | src/alloc_impls.rs:13-18 | `into_std_cow` maps `Borrowed(b)` to `Cow::Borrowed(b)` and `Owned(o)` to `Cow::Owned(o)`, keeping the variant |
| AllocImpls.NoStdCowRoundTrip | src/alloc_impls.rs:13-27 | converting a `NoStdCow` to `Cow` and back is the identity, by the named methods and by the `From` impls |
| AllocImpls.CowRoundTrip | src/alloc_impls.rs:13-27 | converting a `Cow` to `NoStdCow` and back is the identity, by the named methods and by the `From` impls |
| AllocImpls.NoStdCowFromCow | src/alloc_impls.rs:35-37 | `From<Cow> for NoStdCow` is undone by `into_std_cow` |
| AllocImpls.CowFromNoStdCow | src/alloc_impls.rs:44-46 | `From<NoStdCow> for Cow` (with the intended `into_std_cow` call) is undone by `From<Cow>` |
| AllocImpls.FromImplsAreConversions | src/alloc_impls.rs:30-46 | the `From` impls equal `from_std_cow` and `into_std_cow` |
| ToUppercaseExample.ToUppercase | src/lib.rs:15-22 | the result is borrowed exactly when every character is upper case, and then it holds the source; otherwise it holds the upper-cased source |
| ToUppercaseExample.AsciiIsUppercase | src/lib.rs:17 | ASCII instance of `char::is_uppercase`: true exactly on `A` to `Z`; used by `HelloWorldIsUppercase`, `SpacedHelloWorldIsOwned` and `DocExample` |
| ToUppercaseExample.AsciiUpperChar | src/lib.rs:18 | ASCII instance of character upper-casing: lower-case letters become the matching capital, everything else is kept |
| ToUppercaseExample.AsciiToUppercase | src/lib.rs:18 | ASCII instance of string upper-casing: same length, upper-cased character by character |
| ToUppercaseExample.AsciiToUppercaseOfLetters | src/lib.rs:16-18 | upper-casing a string of letters gives an all upper case string |
| ToUppercaseExample.AsciiToUppercaseKeepsNonLower | src/lib.rs:18 | upper-casing leaves a string without lower-case letters (in particular an all upper case one) unchanged |
| ToUppercaseExample.UppercaseResultReadsUpper | src/lib.rs:15-22 | for every input the example's result reads as the upper-cased input, whichever variant it is |
| ToUppercaseExample.SpacedHelloWorldIsOwned | src/lib.rs:15-22 | "HELLO WORLD" is returned owned, because the space is not upper case, though its upper-cased copy equals it |
| ToUppercaseExample.HelloWorldIsUppercase | src/lib.rs:24-25 | "HELLOWORLD" is all upper case |
| ToUppercaseExample.UppercaseOfHelloWorld | src/lib.rs:28-29 | upper-casing "helloworld" gives "HELLOWORLD" |
| ToUppercaseExample.DocExample | src/lib.rs:23-29 | "HELLOWORLD" gives `Borrowed("HELLOWORLD")`, and "helloworld" gives `Owned("HELLOWORLD")` |

## Left out

- Lifetimes, `?Sized` and reference identity: a reference is its value. "The
  address is stable" becomes "the state is unchanged".
- `to_mut` hands out `&mut T`, through which the caller may change the owned
  value. The model returns the value. Writes through the reference are not
  modelled.
- The derived `Hash`, `Debug` and `Clone` on the enum.
- The derived `PartialOrd`: it calls the payloads' `partial_cmp`, never
  their `cmp`. It equals `Some` of `Compare` only because Rust requires each
  payload's `partial_cmp` to agree with its `cmp`.
- Crate attributes and `cfg(feature = "alloc")` gating. The conversions are
  always present in the model.
- Unicode `char::is_uppercase` and `str::to_uppercase`. `ToUppercase` takes
  them as parameters, and the documented cases use an ASCII instance. The
  ASCII instance differs from Rust on every non-ASCII cased letter
  (`'É'.is_uppercase()` is true in Rust but `AsciiIsUppercase('É')` is false,
  and Rust upper-cases `'é'` to `'É'` but `AsciiUpperChar` keeps it). It also
  leaves out multi-character mappings such as `ß`. So the lemmas about
  `AsciiToUppercase`, including `UppercaseResultReadsUpper` "for every
  input", are facts about the ASCII instance, not about `str::to_uppercase`.
- Failures inside `T::clone` and `T::default`. They are treated as total
  functions.
- The `ToOwned` and `B: Clone` bounds of src/alloc_impls.rs:5-9. In the source
  `B: Clone` (src/alloc_impls.rs:8) forces `B: Sized`. Through the blanket
  `impl<T: Clone> ToOwned for T` it also forces `<B as ToOwned>::Owned == B`.
  So the conversions exist only for `RefCow<B>`, not for
  `NoStdCow<String, str>`. The model's separate owned type `O` is more general
  than the source, and the `O == B` case is one instance of it.
