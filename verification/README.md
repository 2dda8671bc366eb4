# units_conversion in Dafny

A model of the unit-algebra engine of `units_conversion`, with proofs about it.
The model has four parts:

- **Dimensions** (`dimension.dfy`, module `Dimensions`). A `Dimension` holds six integer
  exponents: length, mass, time, current, temperature and amount. The model has the
  operator-trait `*` and `/`, the const `mul`, `div` and `pow`, and the named constants
  from `DIMENSIONLESS` to `POWER`.
- **Units** (`unit.dfy`, module `Units`, with `powers.dfy` for `f64::powi`). A `Unit` is a
  dimension plus a scale-to-SI factor. The model has `convert`, `pow`, `*` and `/`, and
  the exponent order that `Display` prints. Scales are exact reals.
- **The registry the build script generates** (`build.dfy`, module `Build`;
  `generated.dfy`, module `Generated`). The build script crosses the base-unit table
  with the prefix table and then adds the standalone units. `Build.BuildRegistry`
  performs that construction for any three tables. It gives `None` when two keys
  collide. `Generated` applies it to the crate's three tables and proves the result:
  120 distinct keys, all with positive scale. It also proves which strings the
  `UNITS.get` lookup finds.
- **The evaluator** (`parser.dfy`, module `Parser`), with properties in `evaluation.dfy`,
  `laws.dfy` and `examples.dfy`.
  - `unit_of_expr` and `unit_of_binop` are one pair of mutually recursive functions. They
    pass the ambient exponent down the tree explicitly.
  - An evaluation has three outcomes: a unit (`Resolved`), no unit (`Unresolved`), or an
    abort (`Panicked`). An abort models an `unreachable!` or a failed `assert!`.
  - `Evaluation` states what the evaluator computes without using its recursion:
    - which trees abort, which fail and which resolve;
    - that, starting from the top level, a tree without `^` raises every atom to 1 or -1;
    - that a resolved unit is the product of the atoms' units, each raised to an
      effective power.
  - `Laws` proves the chain law, the grouping law, the `^` law, and where the grouping law
    breaks.

The text grammar is a parameter of `Parser.ParseUnit`: a function from text to an optional
tree. Every other dependency is modelled.

## Model

| member | source | states |
|---|---|---|
| Dimensions.MulOp | src/dimension.rs:13-26 | No contract. `Dimensions.OperatorsAgree` proves that it agrees with `Dimensions.Mul` |
| Dimensions.DivOp | src/dimension.rs:28-41 | No contract. `Dimensions.OperatorsAgree` proves that it agrees with `Dimensions.Div` |
| Dimensions.Mul | src/dimension.rs:44-53 | No contract. Its laws are in `Dimensions.MulCommutative`, `Dimensions.MulAssociative` and `Dimensions.MulIdentity` |
| Dimensions.Div | src/dimension.rs:55-64 | No contract. `Dimensions.DivIsMulByInverse` relates it to `mul` and `pow` |
| Dimensions.Pow | src/dimension.rs:66-75 | No contract. Its laws are in `Dimensions.PowZeroAndOne`, `Dimensions.PowPow` and `Dimensions.PowDistributesOverMul` |
| Dimensions.OperatorsAgree | src/dimension.rs:13-64 | The `Mul`/`Div` operator traits agree field by field with the const `mul`/`div` |
| Dimensions.MulCommutative | src/dimension.rs:44-53 | `a * b == b * a` |
| Dimensions.MulAssociative | src/dimension.rs:44-53 | `(a * b) * c == a * (b * c)` |
| Dimensions.MulIdentity | src/dimension.rs:44-53 | `DIMENSIONLESS` is a left and right identity of `mul` |
| Dimensions.DivIsMulByInverse | src/dimension.rs:55-75 | `div(a, b) == mul(a, pow(b, -1))`, and dividing by `b` undoes multiplying by `b` |
| Dimensions.PowZeroAndOne | src/dimension.rs:66-75 | `pow(d, 0)` is `DIMENSIONLESS`; `pow(d, 1)` is `d` |
| Dimensions.PowPow | src/dimension.rs:66-75 | `pow(pow(d, j), k) == pow(d, j * k)` for all signs of `j` and `k` |
| Dimensions.PowDistributesOverMul | src/dimension.rs:44-75 | `pow(mul(a, b), k) == mul(pow(a, k), pow(b, k))` |
| Dimensions.BaseDimensions | src/dimension.rs:80-85 | `LENGTH` … `AMOUNT` each equal `DIMENSIONLESS` with one field set to 1 |
| Dimensions.AreaAndVolume | src/dimension.rs:86-87 | `AREA` is `LENGTH` squared and `VOLUME` is `LENGTH` cubed |
| Dimensions.Velocity | src/dimension.rs:88 | `VELOCITY` is `LENGTH` over `TIME` |
| Dimensions.Acceleration | src/dimension.rs:89 | `ACCELERATION` is `MASS` over `TIME` squared, as written, so it has no length |
| Dimensions.Energy | src/dimension.rs:90 | `ENERGY` is `MASS` over `VELOCITY` squared, as written: length -2 and time 2 |
| Dimensions.Power | src/dimension.rs:91 | `POWER` is `ENERGY` over `TIME` |
| Powers.NatPow | build.rs:77 | `pre.scale.powi(unit.pow)` with a natural `pow`. A positive base gives a positive result and a nonzero base a nonzero one. Its algebra is in `Powers.NatPowMul` and `Powers.NatPowProduct` |
| Powers.IntPow | src/unit.rs:27 | `powi` keeps a positive base positive and a nonzero base nonzero. Its algebra is in `Powers.IntPowMul` and `Powers.IntPowProduct` |
| Powers.IntPowMul | src/unit.rs:27 | For a nonzero base, `powi` composes: `(x^m)^n == x^(m*n)` for every sign of `m` and `n` |
| Powers.IntPowProduct | src/unit.rs:27 | For nonzero factors, `powi` distributes over a product |
| Powers.IntPowOfOne | src/unit.rs:27 | `1.0` raised to any power is `1.0` |
| Units.Convert | src/unit.rs:16-24 | `convert` succeeds exactly when the dimensions are equal. On success it keeps the source dimension, and its scale times the target scale is the source scale |
| Units.ConvertToSelf | src/unit.rs:16-24 | Converting a unit to itself gives scale 1 |
| Units.ConvertInverse | src/unit.rs:16-24 | Converting `a` to `b` and `b` to `a` gives reciprocal scales |
| Units.ConvertCompose | src/unit.rs:16-24 | Converting `a` to `b` and then `b` to `c` multiplies to the scale of converting `a` to `c` |
| Units.Pow | src/unit.rs:26-30 | `pow` keeps a positive scale positive and a nonzero scale nonzero |
| Units.PowZero | src/unit.rs:26-30 | `u.pow(0)` is dimensionless with scale 1 |
| Units.PowOne | src/unit.rs:26-30 | `u.pow(1)` is `u` |
| Units.PowPow | src/unit.rs:26-30 | `u.pow(j).pow(k) == u.pow(j * k)` |
| Units.PowDistributesOverMul | src/unit.rs:26-41 | `(u * v).pow(k) == u.pow(k) * v.pow(k)` in dimension and scale |
| Units.PowOfOne | src/unit.rs:26-30 | The dimensionless unit of scale 1 raised to any power is itself |
| Units.Mul | src/unit.rs:36-41 | The product of two units with positive scales has a positive scale |
| Units.MulCommutative | src/unit.rs:36-41 | `u * v == v * u` |
| Units.MulAssociative | src/unit.rs:36-41 | `(u * v) * w == u * (v * w)` |
| Units.MulIdentity | src/unit.rs:36-41 | The dimensionless unit of scale 1 is a two-sided identity of `*` |
| Units.Div | src/unit.rs:47-52 | `u / v` is the unit that, multiplied by `v`, gives back `u`; positive scales stay positive |
| Units.DivIsMulByInverse | src/unit.rs:26-53 | `u / v == u * v.pow(-1)`, which is the only way the evaluator divides |
| Units.DisplayExponents | src/unit.rs:55-68 | The rendering has six columns. Their order is pinned by `Units.DisplayOrder`, and `Units.DisplayDeterminesDimension` shows nothing but the dimension is rendered |
| Units.DisplayOrder | src/unit.rs:55-68 | The rendering puts the exponents of time, mass, length, temperature, current and amount in columns 1 to 6, whatever the scale |
| Units.DisplayDeterminesDimension | src/unit.rs:55-68 | The six rendered exponents read back to the dimension: two units render alike exactly when their dimensions are equal |
| Build.UNITS | build.rs:19-30 | No contract. `Generated.TablesUnambiguous`, `Generated.TablesPositive` and `Generated.LookupBase` state what the table gives the registry |
| Build.ADDITIONAL_UNITS | build.rs:33-44 | No contract. `Generated.TablesUnambiguous`, `Generated.TablesPositive` and `Generated.LookupAdditional` state what the table gives the registry |
| Build.PREFIXES | build.rs:47-58 | No contract. `Generated.TablesUnambiguous`, `Generated.TablesPositive` and `Generated.LookupPrefixed` state what the table gives the registry |
| Build.PlainEntry | build.rs:65-70 | No contract. See `Build.BuildRegistryHasBase` and `Build.BuildRegistryHasAdditional` |
| Build.PrefixedKey | build.rs:73 | No contract. `Generated.KeyParts` proves that the key splits back into prefix and unit symbol |
| Build.UnitEntries | build.rs:64-80 | No contract. See `Build.BaseEntriesContainPlain`, `Build.BaseEntriesContainPrefixed` and `Build.UnitEntriesDistinct` |
| Build.AdditionalEntries | build.rs:83-91 | No contract. See `Build.BuildRegistryHasAdditional` |
| Build.PrefixedEntry | build.rs:72-80 | No contract. `Build.BuildRegistryHasPrefixed` proves what its key looks up to |
| Build.BaseEntries | build.rs:64-81 | No contract. Its size, contents and origin are in `Build.BaseEntriesSize`, `Build.BaseEntriesContainPlain`, `Build.BaseEntriesContainPrefixed` and `Build.BaseEntriesOrigin` |
| Build.Entries | build.rs:64-91 | No contract. `Build.EntriesDistinct` proves its keys distinct for unambiguous tables |
| Build.Insert | build.rs:63-91 | No contract. Its keys, values and size are in `Build.InsertKeys`, `Build.InsertValues` and `Build.InsertSize` |
| Build.BuildRegistry | build.rs:60-98 | No contract. See `Build.BuildRegistrySucceeds` and `Build.BuildRegistryFails` |
| Build.InsertKeys | build.rs:63-91 | The map built from the emitted entries has exactly the entries' keys |
| Build.InsertValues | build.rs:63-91 | With distinct keys, every entry's key maps to that entry's unit |
| Build.InsertSize | build.rs:63-91 | With distinct keys, the map has one key per entry |
| Build.BaseEntriesSize | build.rs:64-81 | The base loop emits `|units| * (|prefixes| + 1)` entries |
| Build.BaseEntriesContainPlain | build.rs:64-71 | Every base unit is emitted under its own symbol, with its own dimension and scale |
| Build.BaseEntriesContainPrefixed | build.rs:72-80 | Every (prefix, base unit) pair is emitted under `prefix ++ symbol` with scale `base * prefix^pow` |
| Build.BaseEntriesOrigin | build.rs:64-81 | Every entry of the base loop is the plain or a prefixed entry of some base unit |
| Build.EntriesDistinct | build.rs:64-91 | For unambiguous tables, all emitted keys are pairwise distinct |
| Build.BuildRegistrySucceeds | build.rs:63-96 | For unambiguous tables, the map builds, with `|units| * (|prefixes| + 1) + |additional|` keys |
| Build.BuildRegistryFails | build.rs:93-96 | Two emitted entries with the same key make the build fail |
| Build.BuildRegistryHasBase | build.rs:64-71 | Looking up a base unit's symbol gives its dimension and scale |
| Build.BuildRegistryHasPrefixed | build.rs:72-80 | Looking up `prefix ++ symbol` gives the base dimension and scale `base * prefix^pow` |
| Build.BuildRegistryHasAdditional | build.rs:83-91 | Looking up a standalone unit's symbol gives its dimension and scale verbatim, and its `pow` is not used |
| Build.BuildRegistryKeys | build.rs:64-91 | Every key is a base symbol, a prefixed base symbol or a standalone symbol |
| Build.BuildRegistryPositive | build.rs:64-91 | Positive table scales give a registry whose scales are all positive |
| Generated.PrefixShape | build.rs:47-58 | Every prefix symbol is one character, `da`, or the two-character micro literal |
| Generated.UnitSymbolShape | build.rs:19-30 | No base symbol is empty, and none starts with `a` or `µ` |
| Generated.KeyParts | build.rs:73 | A prefixed key splits back into the prefix and the unit symbol |
| Generated.BaseSymbolsDistinct | build.rs:19-30 | The base symbols are pairwise distinct |
| Generated.AdditionalSymbolsDistinct | build.rs:33-44 | The standalone symbols are pairwise distinct |
| Generated.PrefixSymbolsDistinct | build.rs:47-58 | The prefix symbols are pairwise distinct |
| Generated.TablesDisjoint | build.rs:19-44 | No base symbol is also a standalone symbol |
| Generated.PlainSymbolsDoNotSplit | build.rs:19-58 | No base or standalone symbol is also a prefix followed by a base symbol |
| Generated.NotAPlainSymbol | build.rs:19-58 | No prefixed key equals a base or standalone symbol |
| Generated.PrefixedKeysDetermineUnit | build.rs:47-73 | Two equal prefixed keys come from the same base unit |
| Generated.TablesUnambiguous | build.rs:19-58 | The crate's three tables produce no colliding keys |
| Generated.TablesPositive | build.rs:19-58 | Every scale in the three tables is positive |
| Generated.Registry | build.rs:60-98 | The generated map has 10 × (10 + 1) + 10 = 120 keys, and every scale in it is positive |
| Generated.Lookup | build.rs:60-98 | Every unit the lookup finds has a positive scale |
| Generated.LookupBase | build.rs:64-71 | Each base symbol finds its unit unchanged |
| Generated.LookupPrefixed | build.rs:72-80 | Each prefix + base symbol finds the base dimension with scale `base * prefix^pow` |
| Generated.LookupAdditional | build.rs:83-91 | Each standalone symbol finds its unit unchanged |
| Generated.LookupDomain | src/parser.rs:98 | The lookup finds a string exactly when it is a table symbol or a prefix (one or two characters) followed by a base symbol |
| Generated.KnownSymbolsFound | build.rs:64-91 | Table symbols and prefixed base symbols are found |
| Generated.FoundSymbolsKnown | build.rs:64-91 | Only table symbols and prefixed base symbols are found |
| Generated.RegistryKeys | build.rs:64-91 | Every key is a base symbol, a prefixed base symbol or a standalone symbol of the crate's tables |
| Generated.MetreLookup | build.rs:20 | `m` is `LENGTH` with scale 1 |
| Generated.KilometreLookup | build.rs:72-80 | `km` is `LENGTH` with scale 1e3 |
| Generated.KilogramLookup | build.rs:72-80 | `kg` is `MASS` with scale 1 |
| Generated.MegajouleLookup | build.rs:72-80 | `MJ` is `ENERGY` with scale 1e6 |
| Generated.KilowattHourLookup | build.rs:72-80 | `kWh` is `ENERGY` with scale 3.6e6 |
| Generated.SquareKilometreLookup | build.rs:72-80 | `km2` is `AREA` with scale 1e6, because `m2` has pow 2 |
| Generated.CubicCentimetreLookup | build.rs:72-80 | `cm3` is `VOLUME` with scale 1e-6, because `m3` has pow 3 |
| Generated.MillilitreLookup | build.rs:26-27 | `ml` is `VOLUME` with scale `1e-3 * (1e-3)^3`: the litre carries pow 3 |
| Generated.DecametreLookup | build.rs:53 | The two-character prefix gives `dam` as `LENGTH` 10 |
| Generated.DecimetreLookup | build.rs:52 | `dm` is `LENGTH` with scale 0.1 |
| Generated.SecondLookup | build.rs:34 | `s` is `TIME` with scale 1 |
| Generated.HourLookup | build.rs:36 | `h` is the standalone hour, `TIME` 3600, not the hecto prefix |
| Generated.HectareLookup | build.rs:43 | `ha` is `AREA` with scale 1e4, entered verbatim |
| Generated.PrefixedMinuteAbsent | build.rs:83-91 | Standalone units get no prefixed variants: `kmin` is not found |
| Generated.UnknownTextAbsent | build.rs:64-91 | A string outside the tables, such as `xyz`, is not found |
| Generated.EmptyTextAbsent | build.rs:64-91 | The empty string is not found |
| Parser.Abs | src/parser.rs:79 | `exponent.abs()` is non-negative and equals `x` or `-x` |
| Parser.Combine | src/parser.rs:69-85 | Both operands are evaluated before matching. An abort on the left wins, then one on the right. A unit results only when both sides give one, and it is their product |
| Parser.UnitOfExpr | src/parser.rs:96-103 | Every unit the evaluator produces keeps a positive scale, given a registry with positive scales |
| Parser.UnitOfBinOp | src/parser.rs:67-94 | Every unit a `*`, `/` or `^` node produces keeps a positive scale |
| Parser.NumericExponents | src/parser.rs:52-54 | No contract. `Parser.ParseUnit` proves that a tree failing it aborts before evaluation |
| Parser.ParseUnit | src/parser.rs:105-113 | Text the grammar rejects gives no unit. A tree with a non-numeric `^` operand aborts. A resolved unit has a positive scale |
| Evaluation.Classification | src/parser.rs:67-103 | At any ambient exponent, evaluation aborts exactly when `Aborts` holds, and resolves exactly when it does not abort and every looked-up atom is known |
| Evaluation.UnknownUnderExponentAborts | src/parser.rs:86-91 | An unknown (non-aborting) left operand of `^` aborts instead of giving no unit |
| Evaluation.UnknownGivesNoUnit | src/parser.rs:72-84 | Outside `^`, an unknown atom with no abort gives no unit |
| Evaluation.FactorPowersAreUnit | src/parser.rs:69-100 | Started at 1 or -1, a tree without `^` raises every atom it looks up to 1 or -1 |
| Evaluation.TopLevelPowersAreUnit | src/parser.rs:105-110 | From the top level, a resolved tree without `^` evaluates to a product of registry units each raised to 1 or -1 |
| Evaluation.ProductAppend | src/unit.rs:36-41 | The product of concatenated factor lists is the product of their products |
| Evaluation.ProductScaled | src/unit.rs:26-41 | Raising every factor's power by `k` raises the product to `k` |
| Evaluation.AtomIsProduct | src/parser.rs:98 | A known atom evaluates to its registry unit raised to the ambient exponent |
| Evaluation.ParenIsProduct | src/parser.rs:100 | A group evaluates its inside at 1, then raises the result to the ambient exponent |
| Evaluation.MultiplyIsProduct | src/parser.rs:69-76 | `*` concatenates the factors of both sides at the same exponent |
| Evaluation.DivideIsProduct | src/parser.rs:77-85 | `/` evaluates its right side at `-|x|` |
| Evaluation.ExponentIsProduct | src/parser.rs:86-92 | `^ k` multiplies every factor power of the left side by `k` |
| Evaluation.EvaluatesToProduct | src/parser.rs:67-103 | A tree that does not abort and has known atoms evaluates to the product of its atoms' registry units, each raised to its effective power |
| Laws.DivideIsMultiplyWhenNonPositive | src/parser.rs:77-85 | At a non-positive ambient exponent, `/` and `*` evaluate alike |
| Laws.ChainLaw | src/parser.rs:77-85 | For any sub-trees and ambient exponent, the right-nested `a/b/c` evaluates as `a/(b*c)` nested without a group, aborts included |
| Laws.ChainLawGrouped | src/parser.rs:77-100 | For atoms, `a/b/c` evaluates as `a/(b*c)` with the group written out |
| Laws.GroupingLaw | src/parser.rs:100 | At a non-negative ambient exponent, `a/(b/c)` evaluates as `a*c/b` in every outcome |
| Laws.GroupingLawFailsUnderDivision | src/parser.rs:100 | At ambient exponent -1 the grouping law fails whenever `c` has a dimension |
| Laws.ChainFactors | src/parser.rs:69-85 | In a chain of `*` and `/`, atoms before the first `/` get the ambient power and every later atom gets `-|x|` |
| Laws.ChainEvaluates | src/parser.rs:69-85 | From the top level, a chain of known atoms evaluates to its atoms raised to +1 before the first `/` and -1 after it |
| Laws.ChainWellFormed | src/parser.rs:69-85 | A chain of known atoms neither aborts nor misses a unit |
| Laws.ExponentLaw | src/parser.rs:86-92 | A known `s ^ k` under ambient `x` is the registry unit raised to `x * k`; an unknown `s` aborts |
| Examples.KnownAtom | src/parser.rs:98 | An atom the lookup finds evaluates to its unit raised to the ambient exponent |
| Examples.Quotient | src/parser.rs:77-85 | A quotient of two found atoms is the quotient of their dimensions and scales |
| Examples.ParsesTo | src/parser.rs:105-110 | A tree the grammar returns with numeric exponents is evaluated at exponent 1 |
| Examples.MetrePerSecond | src/parser.rs:105-113 | `m/s` is `VELOCITY` with scale 1 |
| Examples.KilometrePerHour | src/parser.rs:105-113 | `km/h` is `VELOCITY` with scale 1000/3600 |
| Examples.StandardCubicMetre | build.rs:25 | `Sm3` is `VOLUME` with scale 1 |
| Examples.MegajoulePerStandardCubicMetre | src/parser.rs:105-113 | `MJ/Sm3` is `ENERGY` over `VOLUME` with scale 1e6 |
| Examples.PowMinusOne | src/unit.rs:26-30 | `u.pow(-1)` negates the dimension and inverts the scale |
| Examples.ConvertExamples | src/unit.rs:16-24 | 1 MJ is 1e6 J, and energy does not convert to volume |
| Examples.PerSecondSquared | src/parser.rs:86-92 | `s^2` on the right of a top-level `/` is time -2 |
| Examples.JouleIsNotKilogramSquareMetrePerSecondSquared | src/dimension.rs:90 | `kg*m2/s^2` resolves to length 2, mass 1, time -2, so `J` cannot be converted to it: a consequence of the `ENERGY` definition as written |

## Left out

- f64 arithmetic. Scales are exact reals and `powi` is exact repeated multiplication. The f64 originals hold the scale laws only up to rounding. An f64 division by zero gives inf or NaN, which a real cannot represent.
- Units.Convert: requires a nonzero target scale whenever the dimensions match, because of the f64 point above. Every registry unit satisfies this.
- Units.Div: requires a nonzero divisor scale, for the same reason.
- Units.Pow: requires a nonzero scale for a negative exponent, for the same reason.
- Parser.UnitOfExpr: requires a registry whose scales are all positive. The generated registry is proved to be one.
- The pest grammar, tokenising and the Pratt parser library. `Parser.ParseUnit` takes the text-to-tree function as a parameter.
- The operator table puts `*`, `/` and `^` at one precedence level. The laws and examples use two consequences of that table, written as explicit trees:
  - chains of `*` and `/` nest to the right;
  - a trailing `^` takes only the operand just before it, so `kg*m2/s^2` is `kg*(m2/(s^2))`.
- The `assert!` on the right operand of `^` fires while the tree is built. The model checks the whole tree before evaluating it, which gives the same abort.
- i32 arithmetic. Exponents are unbounded integers, so `abs` of the least i32 and multiplication overflow are not modelled. Neither is the `parse::<i32>().unwrap()` of numeric literals.
- The base table's `pow` column is a natural number. Every row holds 1, 2 or 3.
- `phf_codegen` rejects a duplicate key when the map is built. The model returns `None` for that case instead of modelling the build failure.
- The file I/O of the build script: `OUT_DIR`, `codegen.rs`, the generated source text and the `{:e}` rendering of scales. The model uses the map that text denotes.
- The `Display` text. Only the order of the six exponents is modelled, not the decimal rendering or the separators.
- Serde derives, the `lazy_static` initialisation, and `src/main.rs`, which only prints to the console.
- The micro prefix is the literal in the prefix table: two characters, U+00C2 followed by U+00B5. So `Âµm` is a registry key and the single-character `µm` is not.
