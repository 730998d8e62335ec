# Verification of geomalg, schir and nbdl

This project models the algorithms at the centre of three programs and proves what they are for.
`dafny verify dfyconfig.toml` checks it.

**geomalg**, a compiler for geometric algebra. A blade is a set of basis vectors with a sign, a
multivector a sum of blades with real coefficients, and its meaning an element of the exterior algebra
(`Multivectors`), on which vectors act by wedge and contraction (`Clifford`). The number of basis vectors
and the metric table are arbitrary. `BladeTags` has the tags and their in-place sort, `GeometricProduct`
the rewrites of products, `ProductMeaning` and `CliffordProduct` what they denote; `Reflections`,
`Versors`, `VersorProducts` and `Interpolation` the versors, and `Conformal` conformal geometry. The optimizer of coefficients is in
`LikeTerms`, `Factorings`, `FactorSearches`, `FactorRewriting`, `Polynomials`, `PolynomialBuilders`,
`Materializing` and `SharedPairs`.

**schir**, a Scheme compiler. `SyntaxPatterns`, `SyntaxTemplates` and `SyntaxRules` compile and run rules
of syntax-rules, and `SyntaxStandard` has the match relation and the rules of R7RS and says exactly where
the compiler agrees with them; `SyntaxCompiler` and `SyntaxEvaluator` are the visitors and the interpreter
that do so step by step, and `SyntaxExpansion` puts them together. `Quasiquotes` and `Quasiquoter` do the
same for nested quasiquotation, `Captures` and `ClosureConversion` for closure conversion. `Lexing`,
`Literals`, `Integers`, `Printing`, `Parsing` and `RoundTrip` are the reader and the writer, `Reading` and
`StringSyntax` the external representations of R7RS, `Mangling` the names of variables, `Utf8` text,
`ListLength` the length of lists on the heap.

**nbdl**, optimistic replication: `LocalVersions` is the protocol of one replica.

Arithmetic on coefficients is exact over the reals. Text is a sequence of bytes. Where the code departs
from what it is meant to do, the model follows the code, and the exact condition under which both agree is
proved:

- A nested unquote-splicing does not pass on that only its tail was rebuilt
  (schir/lib/Quasiquote.cpp:149-164): `Quasiquotes.ConvertsExactly`, with the input in `Quasiquotes.LostTail`.
- SpliceOp drops the improper tail of its right operand (schir/lib/OpEval.cpp:695-701):
  `Quasiquotes.SpliceIsAppend`.
- A pack variable that is used again looks for its block argument at the negated distance
  (schir/lib/TemplateGen.h:216-218), which is outside the arguments but for the first capture. The model
  rejects such a template: `SyntaxTemplates.GeneratesExactly`, with the input in
  `SyntaxRules.SecondCaptureRejected`.
- An identifier with the character @ after its first one is none for the writer, which puts vertical lines
  around it (schir/lib/Lexer.cpp:112-137): `Lexing.IdentifierExactly`. The reader takes it all the same:
  `Reading.IdentifierReads`.
- Integers with a magnitude of 32 bits wrap around (schir/lib/Parser.cpp:85-119): `Integers.ReadIntExactly`
  and `Integers.IntegerRoundTrip`.
- In a string a single return is not a newline, and a line continuation takes all the white space that
  follows, line endings too (schir/lib/Parser.cpp:633-650): `StringSyntax.ElementsExactly`, with the inputs in
  `StringSyntax.ReturnStays` and `StringSyntax.ContinuationTakesMore`.
- A code point that is not printable is written whole but passed over by one byte only
  (schir/lib/Context.cpp:559-574): `RoundTrip.WriteThenRead`.
- An empty component ends the mangling of a module name (schir/lib/Mangle.cpp:109-111):
  `Mangling.NodesParse`, with `Mangling.EmptyComponentEnds`.
- A store keeps a local change that its confirmation leaves out (nbdl/include/nbdl/local_version.hpp:47-68):
  `LocalVersions.ConvergesExactly`, with the run in `LocalVersions.ConvergenceNeedsCovering`.
- An underscore among the literals of a rule is no literal (schir/lib/PatternTemplate.h:217-224), although
  createSyntaxRules takes it as one (schir/lib/OpGen.cpp:876-895): `SyntaxStandard.UnderscoreExactly` and
  `SyntaxStandard.CompiledIsStandard`, with the input in `SyntaxStandard.UnderscoreAdmitted`.
- Some rules that are valid by section 4.3.2 of R7RS are rejected: with the ellipsis among the literals, a
  vector pattern, the escape `(... ...)`, a variable under more ellipses than in its pattern, such as
  x in `((x y) ...)` when only y is repeated in the pattern, or the late use of one (see above):
  `SyntaxStandard.StandardRuleCompiles`.
- Reading a component of a mangled name has no end when no segment begins where one is due
  (schir/lib/Mangle.cpp:319-330): the flag of `Mangling.ReadModuleNameNode`, with `Mangling.TakesNothing`.

## Model

| member | source | states |
|---|---|---|
| `Metrics.DotProductSymmetric` | geomalg/include/geomalg/Metric.h:43-59 | the table, looked up on ordered arguments, is a symmetric form |
| `Metrics.DotProductIs` | geomalg/include/geomalg/Metric.h:43-59 | in either order of the arguments the product is that of the first entry for the smaller and the larger vector, and without an entry 1 for a vector with itself and 0 for two |
| `Metrics.ConformalProducts` | geomalg/include/geomalg/Metric.h:78-90 | in the metric of cga three vectors are unit vectors, the other two are null and have the product -1, and all other products are 0 |
| `Conformal.EuclideanSquare` | geomalg/include/geomalg/Metric.h:43-59 | without entries the square of any vector is the sum of the squares of its components |
| `Conformal.ConformalDot` | geomalg/include/geomalg/Metric.h:78-90 | the product of any two vectors of cga by their components |
| `Conformal.ConformalDistance` | geomalg/include/geomalg/Metric.h:78-90 | for the points P and Q of conformal geometry, P Q + Q P is minus the square of their distance |
| `BladeTags.Factorize` | geomalg/include/geomalg/BladeTag.h:104-113 | the loop lists the factors of a tag from left to right, for either sign; a scalar or a 1-blade is its only factor |
| `BladeTags.Create` | geomalg/include/geomalg/BladeTag.h:132-175 | the in-place exchange sort returns the union of distinct basis vectors with the parity of their inversions as sign, zero on a repeat; the array ends as the ascending permutation, or as it was |
| `BladeTags.ExchangeFlips` | geomalg/include/geomalg/BladeTag.h:148-172 | exchanging any two of several distinct basis vectors flips the parity of the inversions |
| `BladeTags.FactorsAscending` | geomalg/include/geomalg/BladeTag.h:80-113 | a canonical tag has its basis vectors as factors in ascending order |
| `BladeTags.WedgeOfFactors` | geomalg/include/geomalg/BladeTag.h:80-175 | creating a tag from the factors of any nonzero tag gives that tag back, sign included |
| `BladeTags.ProductAssociative` | geomalg/lib/Geomalg/Type.cpp:78-105 | the product of blade types is associative, signs and zeros included |
| `BladeTags.ProductGradedAnticommutative` | geomalg/lib/Geomalg/Type.cpp:78-105 | exchanging the operands changes the sign exactly when both grades are odd |
| `BladeTags.ReverseNegateIsResorting` | geomalg/include/geomalg/BladeTag.h:71-76 | the rule that negates by grade agrees with sorting the factors again from the reverse order, for every grade |
| `ProductMeaning.SortBlade` | geomalg/lib/Geomalg/Passes.cpp:816-830 | a wedge of basis vectors in any order denotes the canonical blade with the sign of the tag |
| `ProductMeaning.OuterMeaning` | geomalg/lib/Geomalg/Passes.cpp:816-830 | the outer product of two terms denotes the wedge of all their factors |
| `ProductMeaning.ApplyMetricMeaning` | geomalg/lib/Geomalg/Passes.cpp:2396-2444 | the product of two 1-blades denotes the entry of the metric |
| `ProductMeaning.VectorContract` | geomalg/lib/Geomalg/Passes.cpp:2161-2250 | contracting a blade by a 1-blade denotes contraction by the row of the metric |
| `ProductMeaning.LeftContractMeaning` | geomalg/lib/Geomalg/Passes.cpp:2161-2250 | the expansion of the inner product of terms denotes contraction by every factor of the left operand |
| `ProductMeaning.ExpandMeaning` | geomalg/lib/Geomalg/Passes.cpp:1483-1553 | the expansion of the geometric product of terms ends and denotes the left term acting by the Clifford action on the right one |
| `ProductMeaning.MultiplyMeaning` | geomalg/lib/Geomalg/Passes.cpp:1157-1217 | the distributed product of two sums denotes the action of the first on the second |
| `Clifford.LeftSquare` | geomalg/lib/Geomalg/Passes.cpp:1483-1553 | v (v x) = (v.v) x for every vector and multivector |
| `Clifford.LeftRight` | geomalg/lib/Geomalg/Passes.cpp:1483-1553 | left and right multiplication by vectors commute |
| `Clifford.WedgeIsHalfSum` | geomalg/lib/Geomalg/Passes.cpp:1483-1553 | v ^ x is half of v x + x^ v, the identity behind the expansion |
| `CliffordProduct.MultiplyAssociative` | geomalg/lib/Geomalg/Passes.cpp:1483-1553 | the fully expanded product is associative for every number of basis vectors and every metric table |
| `CliffordProduct.MultiplyBilinear` | geomalg/lib/Geomalg/Passes.cpp:1157-1217 | the expanded product is additive and homogeneous in either operand |
| `CliffordProduct.MultiplyWellDefined` | geomalg/lib/Geomalg/Passes.cpp:1483-1553 | the product depends on what its operands denote only |
| `CliffordProduct.ReverseBlade` | geomalg/lib/Geomalg/Passes.cpp:2354-2373 | reversing the factors of a blade negates it exactly in the grades of the rule |
| `CliffordProduct.ReverseMeaning` | geomalg/lib/Geomalg/Passes.cpp:2354-2373 | negating the terms by grade is reversal |
| `CliffordProduct.ReverseOfProduct` | geomalg/lib/Geomalg/Passes.cpp:2354-2373 | reversal is an anti-automorphism of the expanded product |
| `CliffordProduct.InvoOfProduct` | geomalg/lib/Geomalg/Passes.cpp:2375-2394 | grade involution is an automorphism of the expanded product |
| `Versors.VectorSquare` | geomalg/lib/Geomalg/Passes.cpp:2396-2444 | the square of any vector is its product with itself in the metric |
| `Versors.VectorsAnticommute` | geomalg/lib/Geomalg/Passes.cpp:2396-2444 | u v + v u = 2 u.v for all vectors |
| `Reflections.SandwichWedge` | geomalg/lib/Geomalg/Passes.cpp:1700-1745 | v[a ^ x] = v[a] ^ v[x] for the reflected vector v[a] |
| `Versors.OrthogonalFixed` | geomalg/include/geomalg/Metric.h:61-80 | a blade that the orthogonality test accepts is left as it is by the reflection |
| `Versors.CheckOrthogonal` | geomalg/include/geomalg/Metric.h:61-80 | the two loops over the factors, scalars included, answer whether each pair of 1-blades among them has product zero, and never so without a metric |
| `Versors.ApplyVectorMeaning` | geomalg/lib/Geomalg/Passes.cpp:1647-1745 | the recursive expansion, with its shortcut, denotes v A^ v / (v.v) |
| `Versors.DotTermSumExpanded` | geomalg/lib/Geomalg/Passes.cpp:1647-1745 | the scalar v . a used in the expansion is what the expansion of the inner product of v and a gives |
| `VersorProducts.ApplyVectorIsProduct` | geomalg/lib/Geomalg/Passes.cpp:1647-1745 | v[A] is (-1)^k v A v^-1 in the expanded product, for an invertible v and a blade A of grade k |
| `VersorProducts.VersorAppliesLastFirst` | geomalg/lib/Geomalg/Passes.cpp:1557-1588 | applying the factors one at a time from the last to the first surrounds the argument with the versor and its inverse |
| `VersorProducts.FlattenMeaning` | geomalg/lib/Geomalg/Passes.cpp:1747-1765 | the flattened list of factors of several versors denotes the versors applied one after the other |
| `VersorProducts.VersorInverse` | geomalg/lib/Geomalg/Passes.cpp:1767-1797 | the product of the factors and of the inverted factors in reverse is 1 |
| `VersorProducts.VersorReverse` | geomalg/lib/Geomalg/Passes.cpp:1767-1797 | the factors in reverse denote the reverse of the versor |
| `VersorProducts.VersorInvo` | geomalg/lib/Geomalg/Passes.cpp:1767-1797 | the involuted factors denote the involution of the versor |
| `VersorProducts.VersorNegate` | geomalg/lib/Geomalg/Passes.cpp:1767-1797 | negating one factor negates the versor |
| `VersorProducts.MultiplyUnit` | geomalg/lib/Geomalg/Passes.cpp:1483-1553 | 1 is the unit of the product on both sides |
| `Interpolation.DyadicPower` | geomalg/lib/Geomalg/Passes.cpp:2109-2132 | if each root is the square root of the one before, the 2^n-th power of the k-th power of the last is the k-th power of the first |
| `Interpolation.ReductionKeeps` | geomalg/lib/Geomalg/Passes.cpp:2098-2103 | halving an even k and dropping a root keeps the power |
| `Interpolation.Reduce` | geomalg/lib/Geomalg/Passes.cpp:2096-2103 | the loop ends with k odd or zero or no root left, and keeps the quotient k / 2^n |
| `Interpolation.SelectRoots` | geomalg/lib/Geomalg/Passes.cpp:2115-2132 | the product selected by the bits of k is the k-th power of the last root, and nothing is selected exactly for 0 |
| `Interpolation.Interpolate` | geomalg/lib/Geomalg/Passes.cpp:2077-2133 | the 2^n-th power of the result is D^k for every k up to 2^n |
| `LikeTerms.PairRemoved` | geomalg/lib/Geomalg/Passes.cpp:2465-2479 | taking out a nonzero scalar and its inverse keeps the product |
| `LikeTerms.CancelInverses` | geomalg/lib/Geomalg/Passes.cpp:2465-2479 | the loop nulls factors in place, keeps the product, leaves no scalar with its inverse, and reports a change exactly when there was such a pair |
| `LikeTerms.GetSumTerm` | geomalg/lib/Geomalg/Passes.cpp:2618-2645 | constant and factors of a term multiply to its value, the factors are the operands that are no constants without their negations, and the constant is the signs and constants of the operands |
| `LikeTerms.NoConstantIn` | geomalg/lib/Geomalg/Passes.cpp:2618-2629 | no factor of a term is a constant |
| `LikeTerms.CombineTerms` | geomalg/lib/Geomalg/Passes.cpp:2671-2709 | each component keeps its value, no two terms are alike, and there are fewer operands exactly when something changed |
| `LikeTerms.SimplifySum` | geomalg/lib/Geomalg/Passes.cpp:2671-2714 | the new operands have the same sum in every component, created ones are nonzero and pairwise unlike; nothing changes only if no operand is zero and no two have the same type and factors, and then the operands are the old ones in order |
| `LikeTerms.RewriteSum` | geomalg/lib/Geomalg/Passes.cpp:2671-2739 | the results of an ExpandOp give way to its argument and a single operand of the same type to itself, each with the same components; otherwise there are fewer operands with the same sum, or no zero, no two operands alike and nothing to do |
| `Factorings.ChosenExactly` | geomalg/lib/Geomalg/Passes.cpp:2791-2799 | the chosen terms are those with the factor, without the terms that are only it if these are skipped |
| `Factorings.WorthwhileExactly` | geomalg/lib/Geomalg/Passes.cpp:2810-2826 | a choice is tried exactly when it joins two terms or more and its inner and outer sums cost less than the terms |
| `Factorings.SavingsExact` | geomalg/lib/Geomalg/Passes.cpp:2779-2833 | the savings of a choice are exactly cost(terms) - cost(inner) - cost(outer) |
| `Factorings.FactorsFall` | geomalg/lib/Geomalg/Passes.cpp:2835-2862 | inner and outer sums both have fewer factors in all, so the search ends |
| `Factorings.ChoiceKeepsValue` | geomalg/lib/Geomalg/Passes.cpp:2835-2862 | the cube times the inner sum plus the other terms is the sum, for all values and coefficients |
| `Factorings.OuterKeepsValue` | geomalg/lib/Geomalg/Passes.cpp:2835-2862 | the outer sum has the value of the whole when the new id stands for the inner sum |
| `Factorings.CostSame` | geomalg/lib/Geomalg/Passes.cpp:2864-2878 | what a cost achieves, and its being the least, do not depend on the order of the terms, which justifies the memo table |
| `FactorSearches.IntersectIs` | geomalg/lib/Geomalg/Passes.cpp:2795-2812 | the intersection of sorted lists of ids is the intersection of the products they stand for |
| `FactorSearches.DifferenceIs` | geomalg/lib/Geomalg/Passes.cpp:2840-2852 | the difference of sorted lists of ids is the difference of the products they stand for |
| `FactorSearches.GetCubeChoices` | geomalg/lib/Geomalg/Passes.cpp:2779-2833 | every returned choice is a worthwhile one with its exact savings, every worthwhile one is there once, and savings fall |
| `FactorSearches.SortIsStable` | geomalg/lib/Geomalg/Passes.cpp:2828-2831 | choices that save the same stay in order |
| `FactorSearches.ApplyCubeChoice` | geomalg/lib/Geomalg/Passes.cpp:2835-2862 | the loops split a sum into the inner and outer sums of the choice, with an id that is new |
| `FactorSearches.FactorSearch.GetFactoredCost` | geomalg/lib/Geomalg/Passes.cpp:2864-2892 | the cost is achieved by some factoring, never above the unfactored one nor above that of any single choice, and if the budget is not spent it is the least over all factorings; the budget falls by one for each choice of a sum that is tried, none twice |
| `FactorSearches.OptimalIsLeast` | geomalg/lib/Geomalg/Passes.cpp:2926-2938 | the least cost of a sum is at most that of any choice with any factoring of its inner and outer sums |
| `FactorSearches.FactorSum` | geomalg/lib/Geomalg/Passes.cpp:2926-2939 | for every budget a choice is returned exactly when there is a worthwhile one, its own inner and outer sums can be factored to the returned cost, and no single choice costs less; what is missing of the budget is the number of choices of sums below that were tried, and with some of it left no choice, however its parts are factored, costs less |
| `FactorRewriting.ValueOfIds` | geomalg/lib/Geomalg/Passes.cpp:2904-2924 | the numbers of the factors of a term stand for its factors and its magnitude |
| `FactorRewriting.NumberTerms` | geomalg/lib/Geomalg/Passes.cpp:2904-2924 | each operand is numbered by sorted ids from one table without repetition, with a magnitude other than 0 or 1 as a factor, and the ids and the sign have the value of the operand |
| `FactorRewriting.InnerTerm` | geomalg/lib/Geomalg/Passes.cpp:2957-2965 | erasing the factors of the cube from a term, or dividing its coefficient, leaves a term that times the cube is the operand, with the multiplications of the ids that are left |
| `FactorRewriting.FactorSum` | geomalg/lib/Geomalg/Passes.cpp:2894-2977 | the operations that replace a sum have its value, are emitted exactly when the numbered terms have a worthwhile choice, and need exactly as many multiplications less as the choice of the search saves |
| `Polynomials.PowAdd` | geomalg/lib/Geomalg/Passes.cpp:3058-3076 | x^(a+b) = x^a x^b unless zero is inverted |
| `Polynomials.ProductValue` | geomalg/lib/Geomalg/Passes.cpp:3035-3056 | the monomial with the sums of exponents has the product of the values |
| `Polynomials.AddTermValue` | geomalg/lib/Geomalg/Passes.cpp:3021-3033 | changing a coefficient, or dropping a monomial whose coefficient becomes zero, changes the value by that term |
| `Polynomials.AddedCancels` | geomalg/lib/Geomalg/Passes.cpp:3021-3033 | a term cancels in an addition exactly when a monomial of an operand is missing in the sum |
| `Polynomials.FactorCancelsExactly` | geomalg/lib/Geomalg/Passes.cpp:3041-3044 | a factor cancels in a product of monomials exactly when an atom of an operand is missing in it |
| `PolynomialBuilders.PolynomialBuilder.Add` | geomalg/lib/Geomalg/Passes.cpp:3021-3033 | the result is P + c Q coefficient by coefficient, with the value of it, and the flag is set exactly when a term cancels |
| `PolynomialBuilders.PolynomialBuilder.MultiplyMonomials` | geomalg/lib/Geomalg/Passes.cpp:3041-3048 | exponents are added up, and the flag is set exactly when one becomes zero |
| `PolynomialBuilders.PolynomialBuilder.Multiply` | geomalg/lib/Geomalg/Passes.cpp:3035-3056 | the result is the sum of the rows of the product with its value, or nothing exactly when some rows in the order they are added are too large, and the flag notes exactly what cancels in the rows |
| `PolynomialBuilders.PolynomialBuilder.GetFactor` | geomalg/lib/Geomalg/Passes.cpp:3058-3076 | the polynomial of a factor denotes its value; it is the one of the value, or an atom exactly when there is none or the value is a sum of several atoms, and then nothing is noted |
| `PolynomialBuilders.PolynomialBuilder.GetDot` | geomalg/lib/Geomalg/Passes.cpp:3092-3115 | the polynomial of a dot product is the sum of the products of matching components, and is missing exactly when a product is too large, and then nothing is noted |
| `PolynomialBuilders.InverseDenotes` | geomalg/lib/Geomalg/Passes.cpp:3117-3132 | the inverse of a single monomial denotes 1/x |
| `PolynomialBuilders.PolynomialBuilder.GetInverse` | geomalg/lib/Geomalg/Passes.cpp:3117-3132 | the polynomial denotes the inverse of a nonzero scalar; several monomials are left as an atom |
| `PolynomialBuilders.PolynomialBuilder.Compute` | geomalg/lib/Geomalg/Passes.cpp:3134-3185 | the polynomial denotes the expression and is the one that its operation makes of the polynomials of the operands, or nothing exactly when one of these is missing or the result is too large on the way |
| `PolynomialBuilders.PolynomialBuilder.Get` | geomalg/lib/Geomalg/Passes.cpp:3187-3195 | the cached polynomial denotes the expression, and what cancelled in building it is noted unless it was cached before |
| `PolynomialBuilders.SquareDenotes` | geomalg/lib/Geomalg/Passes.cpp:3197-3247 | k m u^2 + 2 k t m u v + k t^2 m v^2 and k m w^2 with w = u + t v have the same value |
| `PolynomialBuilders.SquareSize` | geomalg/lib/Geomalg/Passes.cpp:3197-3247 | completing a square leaves two monomials fewer |
| `PolynomialBuilders.SquareIsFound` | geomalg/lib/Geomalg/Passes.cpp:3197-3247 | wherever k m u^2 + 2 k t m u v + k t^2 m v^2 is part of a polynomial there is a square to complete |
| `PolynomialBuilders.PolynomialBuilder.CompleteSquare` | geomalg/lib/Geomalg/Passes.cpp:3197-3247 | a step keeps the value and removes two monomials, or there is no square to complete |
| `PolynomialBuilders.PolynomialBuilder.SimplifySum` | geomalg/lib/Geomalg/Passes.cpp:3288-3309 | a polynomial replaces a sum exactly when something cancelled or there was a square to complete, and it has no more terms than operands; it denotes the sum and has no square left |
| `Materializing.TermValue` | geomalg/lib/Geomalg/Passes.cpp:2648-2669 | the operations for a term have the value of its coefficient times its factors, whatever is left out of them |
| `Materializing.CreateTerm` | geomalg/lib/Geomalg/Passes.cpp:2648-2669 | the operations for a term have its type: a single factor stands alone only if it has the type |
| `Materializing.AtomValue` | geomalg/lib/Geomalg/Passes.cpp:3250-3263 | the operations for an atom have its value, for sums u + t w of earlier atoms too |
| `Materializing.Materialize` | geomalg/lib/Geomalg/Passes.cpp:3265-3285 | the operations for a monomial, with the inverse of the product of the atoms of negative exponents, have its value times its coefficient |
| `Materializing.MaterializeSum` | geomalg/lib/Geomalg/Passes.cpp:3310-3325 | the operations for a polynomial, one term a monomial, have the value that it denotes |
| `Materializing.SimplifyPolynomial` | geomalg/lib/Geomalg/Passes.cpp:3288-3326 | a sum is rewritten exactly when its polynomial, built from those of its operands, is one in which something cancelled or that has a square, and has no more terms than operands with all squares completed; the operations have its value |
| `SharedPairs.PairsOf` | geomalg/lib/Geomalg/Passes.cpp:3346-3359 | the pairs of a product are exactly its two-element submultisets, each listed once |
| `SharedPairs.CountPairs` | geomalg/lib/Geomalg/Passes.cpp:3337-3360 | the count of a pair is the number of products with it, and the flag says if one has another factor |
| `SharedPairs.ChoosePair` | geomalg/lib/Geomalg/Passes.cpp:3362-3374 | the chosen pair is shared and in the most products; none is chosen exactly when none is shared |
| `SharedPairs.SharedExactly` | geomalg/lib/Geomalg/Passes.cpp:3362-3374 | a pair is shared exactly when multiplying it once lowers the cost and some product has it and another factor |
| `SharedPairs.CostFalls` | geomalg/lib/Geomalg/Passes.cpp:3376-3394 | each use costs one multiplication less, and the pair itself costs one |
| `SharedPairs.RewrittenScoped` | geomalg/lib/Geomalg/Passes.cpp:3376-3394 | operands stay defined before their uses |
| `SharedPairs.RewrittenConsistent` | geomalg/lib/Geomalg/Passes.cpp:3376-3394 | every product of the block keeps its value |
| `SharedPairs.Block.Rewrite` | geomalg/lib/Geomalg/Passes.cpp:3376-3394 | a round replaces the pair everywhere and lowers the cost by its uses less one |
| `SharedPairs.Block.FactorProducts` | geomalg/lib/Geomalg/Passes.cpp:3330-3395 | the loop ends with no pair shared, the same products computed, and no more multiplications |
| `LocalVersions.MakeDeltaLeast` | nbdl/include/nbdl/delta.hpp:62-79 | the delta takes the second entity to the first, and each delta that does so changes the same fields at least |
| `LocalVersions.AppliedComposed` | nbdl/include/nbdl/delta.hpp:82-120 | applying a delta to a delta composes them |
| `LocalVersions.ApplyDelta` | nbdl/include/nbdl/delta.hpp:85-119 | fields are assigned in place and the flag tells whether any changed |
| `LocalVersions.RunInvariant` | nbdl/include/nbdl/local_version.hpp:36-78 | in every interleaving the pending delta on the value is the fold of all that arrived, and the value is that fold when nothing local is in flight |
| `LocalVersions.UidsExactly` | nbdl/include/nbdl/local_version.hpp:36-68 | a uid is in flight exactly when it has a local change that no later message confirms |
| `LocalVersions.ValueInFlight` | nbdl/include/nbdl/local_version.hpp:36-78 | in every run a field is what the last message assigned to it that was not an own confirmation and arrived since the last time without local changes in flight, and without one it is as it was then |
| `LocalVersions.ChangesShow` | nbdl/include/nbdl/local_version.hpp:36-78 | local and foreign changes show at once: a field is as in all that arrived unless the last message that assigns it confirms one of several local changes |
| `LocalVersions.DifferenceIsInFlight` | nbdl/include/nbdl/local_version.hpp:36-78 | a field differs from the confirmed log only while a local change of it is in flight |
| `LocalVersions.ConvergesExactly` | nbdl/include/nbdl/local_version.hpp:36-78 | with no local change in flight a field ends as in the confirmed log, for all values, if and only if the last message that assigns it is confirmed or none assigns it |
| `LocalVersions.LastConfirmedConverges` | nbdl/include/nbdl/local_version.hpp:36-78 | so with no local change in flight the value is the fold of the confirmed deltas in order, in every run whose last assignments are confirmed |
| `LocalVersions.CoveringConfirms` | nbdl/include/nbdl/local_version.hpp:47-68 | if own confirmations assign all that was submitted, the last assignment of a field is confirmed unless it is in flight |
| `LocalVersions.Convergence` | nbdl/include/nbdl/local_version.hpp:36-78 | with no local change in flight the value is the fold of the confirmed deltas in order, in every run whose confirmations assign all that was submitted |
| `LocalVersions.ReplicasAgree` | nbdl/include/nbdl/local_version.hpp:36-78 | replicas with the same confirmed log, whose last assignments are confirmed, agree whatever each did locally |
| `LocalVersions.ConfirmationKeepsValue` | nbdl/include/nbdl/local_version.hpp:47-68 | an own confirmation leaves the value alone until the last local change is confirmed |
| `LocalVersions.ConvergenceNeedsCovering` | nbdl/include/nbdl/local_version.hpp:47-68 | a run in which a confirmation leaves out a submitted field and the store keeps it |
| `LocalVersions.LocalVersion.ApplyLocalDelta` | nbdl/include/nbdl/local_version.hpp:36-45 | the object takes the step of the protocol, and the flag tells whether the value changed |
| `LocalVersions.LocalVersion.ApplyConfirmedDelta` | nbdl/include/nbdl/local_version.hpp:47-78 | the object takes the step of the protocol for own and foreign confirmations |
| `LocalVersions.LocalVersion.ApplyMessage` | nbdl/include/nbdl/local_version.hpp:36-78 | each message is one step of the protocol |
| `ListLength.Meeting` | schir/lib/Builtins.cpp:835-855 | on any heap the two cursors meet or the list ends within a bounded number of steps |
| `ListLength.MeetingIsCircular` | schir/lib/Builtins.cpp:845-849 | cursors that meet on a pair never reach an end |
| `ListLength.Trichotomy` | schir/lib/Builtins.cpp:832-855 | a list is proper, improper or circular, only one of them, with one length |
| `ListLength.LengthHelper` | schir/lib/Builtins.cpp:835-855 | the loop ends on every heap of pairs and returns the length of a proper list, -1 exactly for a circular one, null exactly for an improper one |
| `Utf8.DecodeEncode` | schir/lib/Builtins.cpp:1660-1735 | decoding the code of a scalar value followed by any bytes gives it and its length back |
| `Utf8.EncodeDecode` | schir/lib/Builtins.cpp:1660-1735 | whatever is decoded is a scalar value whose code is the bytes consumed |
| `Utf8.DecodeIsStandard` | schir/lib/Builtins.cpp:1660-1706 | n bytes are consumed exactly when they are a UTF8-char of section 4 of RFC 3629 |
| `Utf8.EncodeChars` | schir/lib/Builtins.cpp:1660-1735 | encoding the code points of well-formed text gives the text |
| `Utf8.CharsEncode` | schir/lib/Builtins.cpp:1660-1735 | the text of scalar values is well formed and has them as code points |
| `Utf8.Utf8View.DropFront` | schir/lib/Builtins.cpp:609-622 | one code point is removed from the view and returned |
| `Utf8.StringLength` | schir/lib/Builtins.cpp:609-622 | the number of code points |
| `Utf8.StringRef` | schir/lib/Builtins.cpp:624-649 | the k-th code point, or nothing past the end |
| `Utf8.StringCopy` | schir/lib/Builtins.cpp:651-686 | the bytes of the code points from start to end |
| `Utf8.CopySplit` | schir/lib/Builtins.cpp:651-686 | the copy up to k and the copy from k make up the text |
| `Utf8.CopyChars` | schir/lib/Builtins.cpp:651-686 | a copy has the code points of the range, and is well formed |
| `Utf8.CopyLengths` | schir/lib/Builtins.cpp:651-686 | the lengths of the two parts add up |
| `Utf8.EncodeHex` | schir/lib/Builtins.cpp:1737-1748 | leading zeros are left out only when nothing is there yet |
| `Utf8.FromHex` | schir/lib/Builtins.cpp:1751-1765 | the digits are valued in 32 bits, and an error is exactly a character that is not a digit |
| `Utf8.HexRoundTrip` | schir/lib/Builtins.cpp:1737-1765 | the value of the digits of a number is the number |
| `Mangling.MangleIsCode` | schir/lib/Mangle.cpp:106-127 | the continuation is called with the prefix and the code of the text |
| `Mangling.MangleModuleIsCode` | schir/lib/Mangle.cpp:55-65 | a proper specification is mangled to the code of its components |
| `Mangling.MangledExactly` | schir/lib/Mangle.cpp:55-104 | without empty components a name is mangled exactly when it is a proper list of symbols, strings and unsigned integers |
| `Mangling.MangleVariableIsCode` | schir/lib/Mangle.cpp:66-86 | a variable is mangled to the code of its module and name |
| `Mangling.SegmentParses` | schir/lib/Mangle.cpp:280-317 | a segment is parsed back whatever follows it |
| `Mangling.ReadNameSegment` | schir/lib/Mangle.cpp:280-317 | the loop reads a length, special characters and hexadecimal codes as specified |
| `Mangling.SegmentExactly` | schir/lib/Mangle.cpp:280-317 | a segment is read exactly if the text begins with one of the grammar in schir/include/schir/Mangle.h: a length and as many characters, a code of two letters, or a code point in hexadecimal; what begins with none is left |
| `Mangling.ReadModuleNameNode` | schir/lib/Mangle.cpp:319-330 | a component is read segment by segment to its end, and the flag tells exactly when the loop has no end because it stalls |
| `Mangling.TakesNothing` | schir/lib/Mangle.cpp:280-317 | a segment takes nothing, so that the loop stalls, exactly when the text begins with no segment |
| `Mangling.ParsedDoesNotStall` | schir/lib/Mangle.cpp:319-330 | whatever is parsed is parsed without stalling |
| `Mangling.NodesParse` | schir/lib/Mangle.cpp:280-330 | parsing a mangled module name node by node gives its components back if and only if none is empty |
| `Mangling.EmptyComponentEnds` | schir/lib/Mangle.cpp:106-114 | an empty component hides those after it |
| `Mangling.ModuleCodeInjective` | schir/lib/Mangle.cpp:55-127 | different module names without empty components have different codes |
| `Mangling.VariableCodeInjective` | schir/lib/Mangle.cpp:66-127 | equal codes mean the same module and the same variable |
| `Mangling.ParseModulePrefix` | schir/lib/Mangle.cpp:245-278 | the loop consumes whole nodes and stops where there is no progress |
| `Mangling.ModulePrefixOfVariable` | schir/lib/Mangle.cpp:245-278 | the prefix of a mangled variable is its mangled module |
| `Mangling.ModulePrefixExactly` | schir/lib/Mangle.cpp:245-278 | the prefix of a variable, a function or an anonymous function is its module, and the name of the file of a module is all prefix |
| `Mangling.ExternalIsOtherModule` | schir/lib/Mangle.cpp:203-212 | a variable is external exactly when its module is another |
| `Lexing.Lexer.Lex` | schir/lib/Lexer.cpp:157-234 | a token and what is left, with white space before it passed over |
| `Lexing.IdentifierInContext` | schir/lib/Lexer.cpp:236-253 | a text that lexes as an identifier alone does so before any delimiter |
| `Lexing.IdentifierExactly` | schir/lib/Lexer.cpp:65-137 | a text is lexed as an identifier exactly when it is one by section 7.1.1 of R7RS, is none of the numbers that it excepts nor begins with +nan.0, -nan.0, +inf.0 or -inf.0, and has no @ after its first character |
| `Lexing.StandardLexes` | schir/lib/Lexer.cpp:236-253 | an identifier of the standard that is no number is one token, a relaxed one with an @ after the first character |
| `Literals.WriteLiteral` | schir/lib/Context.cpp:521-577 | the loop over bytes writes the escapes of the text |
| `Literals.EscapedExactly` | schir/lib/Context.cpp:521-577 | a text is written as it is between the marks exactly when every code point is printable and none is the mark or a backslash or has an escape of its own |
| `Literals.ParseLiteral` | schir/lib/Parser.cpp:583-660 | the buffer filled by the loop is what the escapes stand for, or there is an error |
| `Literals.EscapedReads` | schir/lib/Context.cpp:521-577 | written text is read back as the specified text, whatever code points are printable |
| `Literals.LiteralToken` | schir/lib/Lexer.cpp:339-356 | a written literal is one token whatever follows, and is read back |
| `Literals.ReadBackIsSame` | schir/lib/Context.cpp:559-574 | a literal is read back unchanged exactly when each byte beyond ASCII belongs to a printable code point |
| `Integers.TryParseInteger` | schir/lib/Parser.cpp:85-119 | the overflow checks are exact: a pattern is returned exactly for magnitudes of 32 bits |
| `Integers.PatternExactly` | schir/lib/Parser.cpp:85-119 | a plus sign changes nothing, a minus sign negates modulo 2^32, and what is no digit or has 33 bits or more stands for nothing |
| `Integers.ReadIntExactly` | schir/lib/Parser.cpp:85-119 | an integer in decimal is read as the signed one of 32 bits that it is congruent to, or is left to floating point exactly when its magnitude has 33 bits or more |
| `Integers.IntegerRoundTrip` | schir/lib/Context.cpp:429 | an integer is read back exactly when it has 32 bits |
| `Integers.IntegerToken` | schir/lib/Lexer.cpp:255-268 | a written integer is one token before any delimiter |
| `Printing.Writer.Visit` | schir/lib/Context.cpp:336-360 | the output grows by the text of the datum |
| `Printing.Writer.VisitCdr` | schir/lib/Context.cpp:462-475 | the output grows by the text of the rest of the list |
| `Printing.Writer.VisitVector` | schir/lib/Context.cpp:483-495 | the output grows by the text of the vector |
| `Printing.ListIsWritten` | schir/lib/Context.cpp:462-481 | a list is written as its elements with spaces between them, and its end after a dot unless it is empty |
| `Printing.VectorIsWritten` | schir/lib/Context.cpp:483-495 | a vector is written as its elements with spaces between them |
| `Printing.SymbolIsWritten` | schir/lib/Context.cpp:579-587 | a symbol is written without vertical lines exactly when it is an identifier of section 7.1.1 of R7RS, no number, and has no @ after its first character |
| `Parsing.Parser.ParseExpr` | schir/lib/Parser.cpp:163-253 | the datum at the current token and the state after it, or an error |
| `Parsing.Parser.ParseElements` | schir/lib/Parser.cpp:287-322 | the list up to its parenthesis |
| `Parsing.Parser.ParseDotted` | schir/lib/Parser.cpp:324-337 | one datum after the dot and a parenthesis |
| `Parsing.Parser.ParseVectorElements` | schir/lib/Parser.cpp:459-491 | the vector up to its parenthesis |
| `RoundTrip.WrittenReads` | schir/lib/Dialect.cpp:294-311 | a written datum is read as specified before any delimiter, and what follows is left |
| `RoundTrip.WriteThenRead` | schir/lib/Dialect.cpp:294-311 | writing and reading gives the datum back exactly when each byte beyond ASCII in it belongs to a printable code point |
| `Reading.FormReads` | schir/lib/Parser.cpp:163-337 | every external representation of a datum, with any white space, abbreviations, dotted tails and vectors, is read as the datum, up to what follows it |
| `Reading.ReadIsForm` | schir/lib/Parser.cpp:163-337 | whatever is read is white space and a representation of the datum, with any token that reads as an atom, and nothing of what follows |
| `Reading.IdentifierReads` | schir/lib/Lexer.cpp:236-253 | an identifier of the standard that is no number is read as the symbol that it names, before any delimiter |
| `Reading.IntegerReads` | schir/lib/Parser.cpp:85-119 | a written 32-bit integer is one token before any delimiter and reads as itself |
| `Reading.BooleanReads` | schir/lib/Lexer.cpp:270-300 | #t and #f read as the booleans before any delimiter |
| `Reading.DelimiterExactly` | schir/lib/Lexer.cpp:140-155 | a delimiter is one of section 7.1.1 of R7RS, a bracket, a brace, a vertical tab, a form feed or the end |
| `Reading.PrefixesAreKeywords` | schir/lib/Parser.cpp:208-215 | the names that abbreviations stand for are the keywords that quasiquotation looks for |
| `StringSyntax.ElementsRead` | schir/lib/Parser.cpp:583-656 | what the text of the elements of a string or a symbol by section 7.1.1 of R7RS is read as |
| `StringSyntax.ElementsExactly` | schir/lib/Parser.cpp:583-656 | it is read as what it stands for if and only if no line ending is a single return and no line continuation comes before white space of its own |
| `StringSyntax.ReturnStays` | schir/lib/Parser.cpp:644-650 | a single return is read as it is, where the standard makes it a newline |
| `StringSyntax.ContinuationTakesMore` | schir/lib/Parser.cpp:633-636 | a line continuation takes the next line ending too |
| `StringSyntax.LiteralReads` | schir/lib/Parser.cpp:583-656 | such a string or symbol between its marks is one token and is read as the value of its elements |
| `Quasiquotes.SpliceIsAppend` | schir/lib/OpEval.cpp:672-705 | for a list on the left, SpliceOp is the append of R7RS exactly when the right operand is a list |
| `Quasiquotes.SpliceLists` | schir/lib/OpEval.cpp:672-705 | the two loops link copies of the pairs of both operands |
| `DatumLists.CollectVector` | schir/lib/OpEval.cpp:623-645 | the loop collects a proper list, and is an error for anything else |
| `Quasiquotes.VectorAsList` | schir/lib/Quasiquote.cpp:202-222 | a vector template means the vector of what its list means |
| `Quasiquotes.Unneeded` | schir/lib/Quasiquote.cpp:167-183 | a template without an unquotation of level 0 is its own value, in the standard and in the emitted code |
| `Quasiquotes.NestedEnd` | schir/lib/Quasiquote.cpp:120-165 | at a nested depth neither the standard nor the code changes whether a template ends as a list |
| `Quasiquotes.OutcomeIsMeaning` | schir/lib/Quasiquote.cpp:107-223 | when no rebuilt part is dropped, the emitted code yields the value of section 4.2.8 of R7RS, at every depth, exactly when no splice of level 0 has an improper tail |
| `Quasiquotes.LostDiffers` | schir/lib/Quasiquote.cpp:144-165 | when one is dropped, the code yields a wrong value for every long enough list |
| `Quasiquotes.DefinedByLists` | schir/lib/Quasiquote.cpp:107-223 | the value of section 4.2.8 of R7RS is defined exactly when the spliced values are lists |
| `Quasiquotes.TailsExactly` | schir/lib/Quasiquote.cpp:144-165 | splices have lists as tails for all values of the unquoted expressions if and only if each tail ends, in the template, in the empty list or in an expression that is spliced elsewhere |
| `Quasiquotes.ConvertsExactly` | schir/lib/Quasiquote.cpp:50-223 | the code is right for all values of the unquoted expressions if and only if nothing is dropped and the tails of splices end as lists in the template |
| `Quasiquotes.LostTail` | schir/lib/Quasiquote.cpp:149-164 | a nested splice whose tail alone is rebuilt comes back as the literal template, which the standard would change |
| `Quasiquoter.Interpret` | schir/lib/OpEval.cpp:672-705 | the interpreter yields the results of all operations, or fails when one fails |
| `Quasiquoter.Quasiquoter.Visit` | schir/lib/Quasiquote.cpp:102-223 | the visit fails exactly on a keyword without its one argument, adds code with the specified outcome, reports the flag, and adds none for a literal |
| `Quasiquoter.Quasiquoter.HandleQuasiquote` | schir/lib/Quasiquote.cpp:120-128 | a nested quasiquotation, rebuilt or returned as it is |
| `Quasiquoter.Quasiquoter.HandleUnquote` | schir/lib/Quasiquote.cpp:131-142 | an unquotation at depth 1 or deeper |
| `Quasiquoter.Quasiquoter.HandleUnquoteSplicing` | schir/lib/Quasiquote.cpp:144-165 | a splice, whose tail does not set the flag of the caller |
| `Quasiquoter.Quasiquoter.HandlePair` | schir/lib/Quasiquote.cpp:170-183 | a pair is rebuilt when either part is |
| `Quasiquoter.Quasiquoter.VisitVector` | schir/lib/Quasiquote.cpp:202-222 | a vector is converted to a list and back when it is rebuilt |
| `Quasiquoter.Quasiquoter.Run` | schir/lib/Quasiquote.cpp:50-57 | the emitted code denotes the value of R7RS under the exact condition, and a template without unquotations of level 0 becomes one literal |
| `SyntaxPatterns.CompiledMatches` | schir/lib/PatternTemplate.h:131-286 | running the operations of a valid pattern succeeds exactly when the pattern admits the form, where an underscore is never a literal, puts each variable or reversed pack in place, and changes nothing else |
| `SyntaxPatterns.LoopMatches` | schir/lib/OpEval.cpp:900-969 | a SubpatternOp succeeds exactly when each element before the tail matches, and leaves reversed packs |
| `SyntaxPatterns.RepeatMatches` | schir/lib/OpEval.cpp:921-941 | the loop from any pair on |
| `SyntaxPatterns.SlotsBetween` | schir/lib/PatternTemplate.h:153-195 | the values of the variables have numbers of their own |
| `SyntaxTemplates.CaptureNames` | schir/lib/TemplateGen.h:208-227 | a capture succeeds exactly when at each level the variable is new or was captured first, and the references made before stay valid |
| `SyntaxTemplates.GeneratesExactly` | schir/lib/TemplateGen.h:91-116 | a template is compiled exactly when its variables are under as many ellipses as in the pattern and no repeated part uses one again that is not its first |
| `SyntaxTemplates.FitsNotLate` | schir/lib/TemplateGen.h:214-225 | the capture lists fit exactly when no variable is used late in a repeated part, stated on the occurrences |
| `SyntaxTemplates.GeneratedMeans` | schir/lib/TemplateGen.h:91-238 | running the code of an accepted template, inside any expansions, gives what section 4.3.2 of R7RS makes of it, escapes included, or fails exactly when the repeated variables stand for different numbers of parts |
| `SyntaxTemplates.IterateMeans` | schir/lib/OpEval.cpp:866-898 | the loop over reversed packs puts the repetitions in order in front of the rest |
| `SyntaxTemplates.IterateUniform` | schir/lib/OpEval.cpp:876-895 | an expansion that ends without an error met packs of equal length |
| `SyntaxTemplates.JoinedValue` | schir/lib/TemplateBase.h:240-256 | sharing an unchanged literal keeps its value |
| `SyntaxRules.BindingDepths` | schir/lib/TemplateGen.h:176-205 | what a variable stands for is nested as deep as its ellipses |
| `SyntaxRules.RuleRewrites` | schir/lib/PatternTemplate.h:73-99 | pattern operations and template code together rewrite exactly the forms that the pattern admits, and to what the template stands for by the standard |
| `SyntaxRules.TemplateAccepted` | schir/lib/TemplateGen.h:167-227 | the exact condition under which the template of a rule is accepted |
| `SyntaxRules.PatternRebuilds` | schir/lib/PatternTemplate.h:131-255 | a pattern taken as a template stands for the form it matched |
| `SyntaxRules.RebuildsForm` | schir/lib/OpEval.cpp:866-969 | compiled as a template, a pattern is accepted and rebuilds the form from the reversed packs |
| `SyntaxRules.SecondCaptureRejected` | schir/lib/TemplateGen.h:216-218 | ((a b b) ...) is well placed and not accepted |
| `SyntaxStandard.MatchedIsAdmitted` | schir/lib/PatternTemplate.h:217-224 | a form that matches by section 4.3.2 of R7RS, where literals come first, is admitted by the code |
| `SyntaxStandard.UnderscoreExactly` | schir/lib/PatternTemplate.h:217-224 | for all forms admitting is matching, if and only if no form that the pattern admits has a part at an underscore that disagrees with the literal underscore |
| `SyntaxStandard.UnderscorePlainly` | schir/lib/PatternTemplate.h:217-224 | when literals agree with identifiers only: if and only if the underscore is no literal or no node of the pattern |
| `SyntaxStandard.UnderscoreAdmitted` | schir/lib/OpGen.cpp:876-895 | with the underscore among the literals, the pattern _ admits an integer, which does not match |
| `SyntaxStandard.CompiledIsStandard` | schir/lib/PatternTemplate.h:131-286 | the operations of a valid pattern succeed exactly for the forms that match by section 4.3.2 of R7RS, if and only if the pattern is read as in the standard |
| `SyntaxStandard.StandardPatternValid` | schir/lib/PatternTemplate.h:131-286 | a pattern of section 4.3.2 of R7RS is valid for the compiler exactly when it has no vector |
| `SyntaxStandard.PlacedExactly` | schir/lib/TemplateGen.h:167-227 | the rule of the compiler for variables of a template is that of the standard, less escapes and variables under more ellipses than in the pattern |
| `SyntaxStandard.StandardRuleCompiles` | schir/lib/OpGen.cpp:866-895 | a rule valid by the standard is compiled if and only if the ellipsis is no literal, the pattern has no vector, and the template has no escape, no variable under more ellipses than in the pattern and no late use of one in a repeated part |
| `SyntaxStandard.FormsByStandard` | schir/lib/PatternTemplate.h:73-99 | a compiled rule that is read as in the standard admits exactly the forms that match |
| `SyntaxCompiler.PatternTemplate.Visit` | schir/lib/PatternTemplate.h:125-286 | the visitor emits the operations of the pattern, binds its variables, and fails exactly for an invalid pattern or a variable bound twice |
| `SyntaxCompiler.PatternTemplate.VisitTail` | schir/lib/PatternTemplate.h:131-151 | the counted length is the number of pairs of the tail pattern and one |
| `SyntaxCompiler.PatternTemplate.VisitSubpattern` | schir/lib/PatternTemplate.h:153-195 | the body is emitted apart and its variables become packs |
| `SyntaxCompiler.PatternTemplate.CollectPacks` | schir/lib/PatternTemplate.h:174-181 | the values collected from a body are those of its variables, nested ones included |
| `SyntaxCompiler.TemplateGen.Visit` | schir/lib/TemplateGen.h:118-238 | the visitor produces the code of the template and the captures of the expansions, and fails exactly when there is none |
| `SyntaxCompiler.TemplateGen.ExpandPack` | schir/lib/TemplateGen.h:91-116 | the rest first, then the body with captures of its own, which must not be empty |
| `SyntaxCompiler.TemplateGen.GetPatternVar` | schir/lib/TemplateGen.h:167-205 | a variable at exactly its depth |
| `SyntaxCompiler.TemplateGen.MaybeCaptureExpandArg` | schir/lib/TemplateGen.h:208-227 | the loop captures at every level as specified |
| `SyntaxCompiler.CompileRule` | schir/lib/PatternTemplate.h:73-99 | a rule is compiled exactly when ellipsis, pattern and template are accepted, and then every form that the pattern admits is rewritten to what the template stands for |
| `SyntaxEvaluator.Evaluator.Run` | schir/lib/OpEval.cpp:735-770 | the loop over a block with scoped values has the effect of its operations on the innermost scope only |
| `SyntaxEvaluator.Evaluator.VisitMatchTail` | schir/lib/OpEval.cpp:772-792 | the cursor ends where as many pairs remain as the pattern has |
| `SyntaxEvaluator.Evaluator.VisitSubpattern` | schir/lib/OpEval.cpp:900-941 | the loop over the elements with a scope for each has the specified effect |
| `SyntaxEvaluator.Evaluator.VisitResolve` | schir/lib/OpEval.cpp:943-958 | each value goes in front of its pack in the scope outside |
| `SyntaxEvaluator.Evaluator.VisitExpandPacks` | schir/lib/OpEval.cpp:866-898 | the loop over packs yields the specified list or error |
| `SyntaxEvaluator.CompiledNumbered` | schir/lib/PatternTemplate.h:153-195 | the packs of every compiled pattern have numbers of their own, so that scopes do not interfere |
| `SyntaxExpansion.Expand` | schir/lib/OpEval.cpp:735-969 | compiling and running a rule on any form: rejected exactly when the rule is not accepted, no match exactly when the form is not admitted, which is when it does not match if the pattern is read as in the standard, and otherwise rewritten to what the standard says, or packs of unequal length |
| `Captures.RunsRight` | schir/lib/OpEval.cpp:391-478 | well-formed code never meets a missing capture or value, and every value met in it and in all closures made in it is that of the definition it stands for |
| `Captures.CodeStays` | schir/lib/OpGen.cpp:1671-1679 | code stays well formed when captures, functions and values are added |
| `ClosureConversion.CaptureKeeps` | schir/lib/OpGen.cpp:1670-1684 | one more capture and its load keep every scope well formed |
| `ClosureConversion.SeesInside` | schir/lib/OpGen.cpp:1639-1665 | a value of a scope can be reached from all scopes inside it |
| `ClosureConversion.OpGen.LocalizeRec` | schir/lib/OpGen.cpp:1655-1685 | the result stands for the same definition and can be used in the scope; captures only grow |
| `ClosureConversion.OpGen.LocalizeValue` | schir/lib/OpGen.cpp:1639-1653 | the result can be used at the insertion point and stands for the same definition |
| `ClosureConversion.OpGen.VisitBinding` | schir/lib/OpGen.cpp:1406-1413 | the result stands for the definition of the binding, through whatever loads were made before |
| `ClosureConversion.OpGen.DefineValue` | schir/lib/OpGen.cpp:1345-1357 | a new definition is available from then on and stands for itself |
| `ClosureConversion.OpGen.PushScope` | schir/lib/OpGen.cpp:1248-1260 | entering a function or one side of an if |
| `ClosureConversion.OpGen.PushContinuationScope` | schir/lib/OpGen.cpp:1488-1504 | entering the continuation of a call or of an if |
| `ClosureConversion.OpGen.PopFunction` | schir/lib/OpGen.cpp:754-766 | the closure is made with the complete capture list before the call, and all is well formed |
| `ClosureConversion.OpGen.PopBranch` | schir/lib/OpGen.cpp:1248-1260 | leaving one side of an if |
| `ClosureConversion.OpGen.PopContinuations` | schir/lib/OpGen.cpp:73-86 | continuations are popped innermost first |
| `ClosureConversion.FunctionRuns` | schir/lib/OpEval.cpp:391-478 | a finished function runs with right captures, and each load in it yields the value of its definition |
| `ClosureConversion.ModuleRuns` | schir/lib/OpGen.cpp:1639-1685 | after any sequence of requests, when all scopes are left, running the module succeeds and every value is that of the definition it stands for |

## Left out

- Floating point: exact real arithmetic stands for f32 and f64, the tolerance of completeSquare is exact equality, and exp, log, normalize, createVersorNormSq and the small-angle branches are not modelled.
- expandMultivectorVP and blade versors of grade two or more; the versors here are vectors and products of vectors. isUnitVector and the inverses of other multivectors (ExpandInverse) are not modelled.
- createMultivectorLikeType and isValidNarrowing: sorting and merging of types without arithmetic. Types of operands are numbers or grades here, and type inference and the narrowing of casts are not modelled.
- SimplifyMul beyond cancelInverses, matrices, and the lowering to SPIR-V and LLVM.
- The order in which maps and sets of pointers are visited: Polynomials and SharedPairs choose any of the candidates that the code may visit first, and the memo key of FactorSearches is the multiset of terms.
- Operations of the compiler framework: operation builders, pattern drivers, dialects and source locations.
- nbdl messages other than deltas (apply_action), promises, endpoints and the network.
- The reader's comments, characters, byte vectors, directives, floats, neoteric and curly-infix expressions. A line comment at the very end of a text is read past its end by the original.
- FromHex: does not model more than 16 digits, whose shift is undefined in the original.
- EncodeHex: models code points that fit 32 bits, the width of the argument.
- LengthHelper: the count is unbounded here, where the original counts in 32 bits.
- VisitMatchTail: lengths are unbounded here, where the original counts in 32 bits.
- ParseModulePrefix: stops where the original asserts or makes no progress.
- ReadNameSegment: gives nothing where the original asserts, for a length beyond the end of the text or a text that ends in a length.
- ReadModuleNameNode: ends with no result where the original has no end, and says so.
- Materialize: the operations are expressions; the order in which the original sorts factors, and that it computes the value of an atom once for all its uses, are not modelled.
- FactorSum: does not count multiplications when a coefficient is zero, because the original then multiplies by zero where it counts no factor.
- LiteralReads: a string or symbol with a byte 0 in it, which ends the text for the lexer, is left out.
- FormReads: the elements of section 7.1.2 that the model leaves out (characters, byte vectors, labels, comments) are no forms.
- TryParseInteger: the radix is 2 to 16, the ones that the reader has.
- Hygiene of macros: syntax closures and renamed symbols stand for the forms and symbols in them, and whether a literal identifier and a form have the same binding is a parameter. syntax-source-loc is not modelled, and neither are several rules of one syntax definition, which are tried in order.
- RebuildsForm: needs a pattern without the underscore and with a variable in each repeated part, because an ignored form cannot be rebuilt.
- SecondCaptureRejected: an argument number outside the block is undefined in the original, and is a rejection here.
- OutcomeIsMeaning: does not cover vectors with quasiquote or unquote among their elements, for which R7RS leaves the meaning open; evaluation of the unquoted expressions is a function of the expression, so the order of their effects is not modelled.
- Globals, imports and exports, local defines, case-lambda and the evaluation of calls in closure conversion: any operation with a result is a definition, whose value is arbitrary.
- DefineValue: a binding has no other entry on the stack of scopes when it gets one, as in the original.
- PushContinuationScope: the call itself is not an operation of the block; the closure of its continuation is put where the call is.
- The continuation stack, dynamic-wind, the garbage collector, files, plugins and error reporting.
