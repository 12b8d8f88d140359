# A model of Buildroot's Kconfig engine and of mkpimage

Dafny models of the code in `support/kconfig` that decides what a configuration means, and of
`package/mkpimage/mkpimage.c`, with proofs of what that code promises. `dafny verify dfyconfig.toml`
checks all of it; Dafny 4.11 is assumed.

## What is modelled

**Dependency expressions** (`expr.c`, `rewrite_m` of `menu.c`). `Expressions` holds the expressions
and their three-valued meaning with the string and number comparisons of `expr_calc_value`; `CNumbers`
is the part of the C library that it relies on (64-bit, saturating). `ExprTransform`, `ExprEquality`,
`ExprDuplicates` and `ExprCompare` define each pass as a function on values and prove what it means.
`ExprNodes` and `ExprDupNodes` are the passes as they are written: nodes that are rewritten in place,
tied to the functions. `expr_eliminate_dups1` is called with two pointers into one and the same tree;
two paths from its root say where those slots are, and the proof shows that they still hold what they
should after each rewriting. `DuplicatesLimit` and `SubmenuLimit` say exactly when joining operands
and comparing expressions can be trusted. `EqualityLaws` says what `expr_eq` decides, `JoinLaws` which
operands are joined, and `SubmenuLaws` which entries join a submenu.

**The evaluator** (`symbol.c`). `SymbolGraph` defines, for every symbol, its value by recursion over
the rank of the symbol, without any cache. `CachedEvaluator` is `sym_calc_value` with `SYMBOL_VALID`,
re-entered from its own callees and from the members of a choice; `EvaluatorState` states the
invariant of the table while calculations are under way. `UserChanges` and `Sessions` add
`sym_set_tristate_value` and whole runs, `StaleCache` a run that leaves a wrong cache; `Ranges` is
about the clamping of numbers. `ValueLaws`, `ChoiceLaws`, `SettingLaws` and `NumberLaws` say what the
values, flags, picks and comparisons are without reference to how they are calculated.
`DependencyCheck` is the depth-first search, with choices, that is supposed to make the evaluation
well-founded.

**Menus** (`menu.c`). `MenuTree` describes how `menu_finalize` reshapes a tree, as a function on
forests; `MenuFinalize` is the code on linked nodes, which moves siblings while it walks over them;
`MenuWalk` is the walk without a stack that the writers use. `MenuOrder` shows that `menu_finalize`
leaves a menu for this walk, which still meets the symbols in their old order, and `MenuMeaning` that
all conditions mean what they did. `MenuRelations` is what the symbols get on the way; `MenuGraph` and
`MemberPrompts` prove that these are the dependencies, choices and members that the evaluator relies
on, `MenuEvents` that they come from the entries of the menu, and `MenuParents` where each node ends
up.

**Persistence** (`confdata.c`). `SavedConfig` is about which lines `savedefconfig` and `conf_write`
keep and what reading them back does, `LostConfig` has configurations that they do not preserve,
`SavedLines` shows that no line of `savedefconfig` is superfluous. `ConfigWriter` is what the writers
do for one symbol, `MenuWriter` how they walk over the menu, `ConfigReader` the reader; `Quoting` and
`ConfigText` are the text of the file. `ChoiceConfig` takes a configuration with a choice all the way
from its menu to the file and back. `FileLaws` and `ReadingLaws` tell what stands on the lines, and
what is taken from them, by their characters.

**The boot image** (`mkpimage.c`). `CrcTable`, `Polynomials` and `Crc` prove the table-driven CRC
against polynomial division; `SocfpgaImage` is the header with its branches, checksum and sizes, and
`ImageLaws` what the header says byte by byte.

Code that changes things in place is modelled by classes, arrays and methods with loops. Each such
method is tied to a function, and the properties are proved of that function.

## Premises

The claims hold under these premises, most of which the code establishes elsewhere. Where leaving
one out makes a claim false, a lemma says so or states exactly when the claim holds.

- A valuation is *typed*: y, m and n mean themselves, bool symbols are never m, and no symbol is m
  while modules are off. `SymbolValues.EnvOfTyped` shows that the evaluator provides this.
- Ordered comparisons have no operand of type S_OTHER (`ExprTransform.OppositeMeaning` is the exact
  condition, `ExprTransform.OppositeOfOther` the failure).
- If a tristate symbol is compared with a constant, the constant is y, m or n
  (`ExprDuplicates.JoinConstantsExact`, `ExprDuplicates.JoinNumberFails`; the exact condition is
  `DuplicatesLimit.EliminateDuplicatesExact`).
- `expr_trans_compare` is exact as long as no negated symbol is m, and not beyond
  (`SubmenuLimit.TransCompareExactFor`). The test for automatic submenus relies on this:
  `SubmenuLimit.SubmenuExact` says that it can be trusted under no other condition.
- Choices are bool and not optional, nothing selects them, which the grammar cannot express, and their
  defaults name their members. Where members and choices are concerned, members have no defaults of
  their own, as a warning of `menu_finalize` demands.
- For the round trips of `savedefconfig` and `conf_write`: every symbol with a prompt, unless it is a
  choice, has a menu node, only bool and tristate symbols are selected, ranges are in order, and the
  user's numbers are valid. Even so each writer loses one kind of value. `savedefconfig` loses the m
  of a symbol that is visible as m and selected as m, that the user has set, and whose default is y:
  the m cannot be changed, so no line is written, and the default wins when the file is read back.
  `conf_write` loses the y of a symbol that is visible only as m but y by default: read back as the
  user's value, it is limited by the visibility. The round trips hold exactly if no symbol is in
  that state (`LostConfig.RoundTripCanFail`).
- A printed line can be read if its name holds no '=', space or newline, its value no newline, and
  the line does not begin like a comment. The prefix may be empty, as it is in Buildroot. Values that
  are not quoted must not end in a carriage return.
- `mkpimage` accepts images without room for header, trampoline and CRC. Without `-b`, this is a
  version 1 image from an input of 81 to 84 bytes: its CRC takes the place of the trampoline. From an
  input of 80 bytes the trampoline is even written behind the buffer
  (`SocfpgaImage.PlanFits`, `SocfpgaImage.OverlappedBoots`, `SocfpgaImage.SmallestImageOverflows`).

The code is followed where its comments, or a reader's expectation, differ:

- The comment in front of `expr_trans_bool` speaks of bool symbols, but the code rewrites comparisons
  of tristate symbols.
- Three kinds of values survive although `sym_tristate_within_range` refuses them: y for a symbol that
  is implied by y and visible as m, the value that is forced on a symbol which is selected at least as
  far as it is visible, and the value that an invisible symbol has anyway
  (`UserChanges.AcceptedValue`).
- `sym_set_tristate_value` invalidates nothing if it sets the value that a symbol has; if that is a y
  that the symbol owes to its default while it is visible only as m, the cache is stale from then on
  (`Sessions.SetTristateValue`, `StaleCache.SetToItsValue`).
- `sym_check_deps` can miss a cycle that runs through two choices: it takes the mark of a choice away
  before it follows its members. If a symbol has entries in both choices, and a member of the second one
  depends on it, the order of the search decides what is reported (`DependencyCheck.MissesCycle`,
  `DependencyCheck.FindsCycle`). `menu_finalize` only warns of such entries. If whoever depends on a
  choice reaches one of its members, the report is exact (`DependencyCheck.CheckAll`).
- `expr_eq` is not transitive if y or n stand as operands (`EqualityLaws.ConstantsMatter`).
- The direct dependency of a symbol with an entry without a condition is that of its other entries,
  because NULL is dropped by `expr_alloc_or` (`MenuGraph.DirectExact`).
- `conf_write` right after `conf_write_defconfig`, in the same process, writes no symbol
  (`MenuWriter.WriteBoth`).
- The comment in `sym_get_string_default` admits that the range of a number is not applied to its
  default; `SavedConfig.DefaultTextMeaning` says when this matters.
- A negative number that is printed as "0x%llx" does not parse back (`Ranges.ParseFormatHex`), and a
  range whose bounds are in the wrong order never settles (`Ranges.ClampIdempotent`).

## Model

| member | source | states |
|---|---|---|
| ExprTransform.TransformMeaning | buildroot-2023.02/support/kconfig/expr.c:686-841 | expr_transform gives every expression without S_OTHER operands of ordered comparisons the value that it had, in every typed valuation |
| ExprTransform.TransformNormalises | buildroot-2023.02/support/kconfig/expr.c:686-841 | the result is in negation normal form (! only above symbols other than y, m and n), and no comparison is left that a rule for bool symbols rewrites |
| ExprTransform.TransformIdempotent | buildroot-2023.02/support/kconfig/expr.c:686-841 | transforming twice is transforming once |
| ExprTransform.Transform | buildroot-2023.02/support/kconfig/expr.c:686-841 | the rewriting ends: a weight that counts negations and comparisons never grows and falls at each De Morgan step |
| ExprTransform.TransformWellTyped | buildroot-2023.02/support/kconfig/expr.c:686-841 | the premises of the later passes survive |
| ExprTransform.OppositeMeaning | buildroot-2023.02/support/kconfig/expr.c:762-785 | exchanging a comparison for its opposite negates its value if and only if it is no ordered comparison of operands that cannot be compared |
| ExprTransform.OppositeOfOther | buildroot-2023.02/support/kconfig/expr.c:1076-1080 | with an operand of type S_OTHER, !(l<r) is y but becomes a comparison that is n |
| ExprTransform.CompareWithConstant | buildroot-2023.02/support/kconfig/expr.c:1040-1103 | a bool or tristate symbol compared with y, m or n is compared by its tristate value, never by number |
| ExprEquality.FoldConstantsMeaning | buildroot-2023.02/support/kconfig/expr.c:308-389 | expr_eliminate_yn keeps the value |
| ExprEquality.FoldConstantsShrinks | buildroot-2023.02/support/kconfig/expr.c:308-389 | it never adds nodes, and it removes some as soon as a constant is there to fold |
| ExprEquality.FoldConstantsFixed | buildroot-2023.02/support/kconfig/expr.c:308-389 | it leaves nothing to fold |
| ExprEquality.CancelLeavesFactor | buildroot-2023.02/support/kconfig/expr.c:149-189 | what __expr_eliminate_eq takes out of two trees is one factor: both old values are that factor combined with the new ones |
| ExprEquality.CancelCommonFactors | buildroot-2023.02/support/kconfig/expr.c:220-240 | expr_eliminate_eq takes out at most one factor of each of two different operators from both expressions |
| ExprEquality.SameMeaning | buildroot-2023.02/support/kconfig/expr.c:251-295 | expr_eq is sound: what it takes for equal has equal values in every valuation |
| ExprEquality.CancelLeaves | buildroot-2023.02/support/kconfig/expr.c:149-189 | the mutual recursion of __expr_eliminate_eq and expr_eq ends, and neither tree grows |
| ExprEquality.CancelLeavesComplete | buildroot-2023.02/support/kconfig/expr.c:149-189 | afterwards no operand of one tree equals an operand of the other (the constants y and n aside), and no operand but the neutral constant is new |
| ExprEquality.CancelToYes | buildroot-2023.02/support/kconfig/expr.c:220-240 | if y is all that is left of the second expression, the first one implies it |
| EqualityLaws.SameExact | buildroot-2023.02/support/kconfig/expr.c:251-295 | expr_eq decides equality: without the constants y and n as operands, it holds exactly for expressions that have the same operands on each level, as often, in whatever order and grouping |
| EqualityLaws.SameReflexive | buildroot-2023.02/support/kconfig/expr.c:251-295 | with constants, too, every expression equals itself |
| EqualityLaws.SameSwapped | buildroot-2023.02/support/kconfig/expr.c:269-279 | without constants as operands, the order of two operands makes no difference to it |
| EqualityLaws.ConstantsMatter | buildroot-2023.02/support/kconfig/expr.c:251-295 | with constants expr_eq is not transitive: A && (B or n) and (A or n) && B both equal A && B, but not each other |
| EqualityLaws.CancelLeavesExact | buildroot-2023.02/support/kconfig/expr.c:149-189 | each level keeps exactly the operands that the other one does not have, or not as often |
| EqualityLaws.CancelSameOp | buildroot-2023.02/support/kconfig/expr.c:220-240 | the same for expr_eliminate_eq on two levels of one operator; what is left is free of constants, or the neutral one |
| EqualityLaws.CancelSingle | buildroot-2023.02/support/kconfig/expr.c:220-240 | a single operand is taken out exactly if it stands on the level of the other expression, in either order |
| EqualityLaws.CancelSwapped | buildroot-2023.02/support/kconfig/expr.c:205-208 | A && (B or C) and (C or B) && A cancel to y and y |
| EqualityLaws.CancelPart | buildroot-2023.02/support/kconfig/expr.c:196-200 | A op B and A op B op C cancel to the neutral constant and C |
| ExprDuplicates.JoinMeaning | buildroot-2023.02/support/kconfig/expr.c:423-579 | expr_join_or and expr_join_and yield a node with the value of the two operands together |
| ExprDuplicates.JoinConstantsExact | buildroot-2023.02/support/kconfig/expr.c:532-545 | the rule for (s='b') && (s!='c') is right in every valuation if and only if no tristate value compares equal to both constants |
| ExprDuplicates.JoinNumberFails | buildroot-2023.02/support/kconfig/expr.c:532-545 | with (s='n') && (s!='0') the rule turns n into y, because "0" equals n by number |
| ExprDuplicates.EliminateDuplicatesMeaning | buildroot-2023.02/support/kconfig/expr.c:656-678 | expr_eliminate_dups, with both slots of a pair inside one tree, keeps the value of every expression that compares tristate symbols with no constants but y, m and n |
| ExprDuplicates.EliminateDuplicatesSafe | buildroot-2023.02/support/kconfig/expr.c:656-678 | so it does with any other constants, as long as no tristate symbol compares equal to two of them |
| DuplicatesLimit.EliminateDuplicatesExact | buildroot-2023.02/support/kconfig/expr.c:656-678 | for any set of constants and any valuation: all expressions that compare tristate symbols with no others, but for y, m and n, keep their values if and only if no tristate symbol compares equal to two of them |
| ExprDuplicates.JoinPairs | buildroot-2023.02/support/kconfig/expr.c:588-643 | one round ends and leaves no larger tree, with its operators where they were, so that the aliased slots stay valid |
| ExprDuplicates.JoinPairsCount | buildroot-2023.02/support/kconfig/expr.c:588-643 | a round without a join changes nothing; a round with one leaves a constant to fold, so that the loop ends |
| ExprDuplicates.NoDuplicates | buildroot-2023.02/support/kconfig/expr.c:656-678 | the result is a fixpoint: no rule applies to any two of its operands |
| ExprDuplicates.EliminateDuplicatesForm | buildroot-2023.02/support/kconfig/expr.c:656-678 | negation normal form and the typing premises survive |
| JoinLaws.CompareJoined | buildroot-2023.02/support/kconfig/expr.c:449-562 | comparisons of a tristate symbol with y, m and n: expr_join_or joins two different ones if and only if each holds for one value only, and expr_join_and unless each holds for one value only |
| JoinLaws.SymbolJoined | buildroot-2023.02/support/kconfig/expr.c:516-530 | expr_join_and joins a symbol and a comparison of it if and only if the comparison holds for y; expr_join_or never does |
| JoinLaws.NegationJoined | buildroot-2023.02/support/kconfig/expr.c:471-475 | expr_join_or joins a symbol and its negation if the symbol is bool, to y, and not otherwise |
| JoinLaws.OthersNotJoined | buildroot-2023.02/support/kconfig/expr.c:423-579 | operands about different symbols are not joined |
| JoinLaws.EqualJoined | buildroot-2023.02/support/kconfig/expr.c:423-579 | equal operands are joined to one of them, whatever they are |
| JoinLaws.JoinPlace | buildroot-2023.02/support/kconfig/expr.c:620-642 | of two joined slots the first gets the neutral constant and the second the joined operand; no other slot changes |
| ExprCompare.DropUnequalNoMeaning | buildroot-2023.02/support/kconfig/expr.c:394-418 | on a negation normal form expr_trans_bool never changes whether a value is n |
| ExprCompare.DropUnequalNoComplete | buildroot-2023.02/support/kconfig/expr.c:394-418 | no comparison of a tristate symbol with !=n is left |
| ExprCompare.DropUnequalNoBelowNot | buildroot-2023.02/support/kconfig/expr.c:394-418 | below a negation it does change n to m: the normal form is needed |
| ExprCompare.RewriteModMeaning | buildroot-2023.02/support/kconfig/menu.c:81-104 | rewrite_m has the value of m limited by MODULES, and of everything else what it was |
| ExprCompare.PropagateMeaning | buildroot-2023.02/support/kconfig/menu.c:388-398 | a condition that menu_finalize propagates is the conjunction of the inherited and the own one, with m worth no more than MODULES in the latter, and stays in the form that the next passes need |
| ExprCompare.PropagatedVisibility | buildroot-2023.02/support/kconfig/menu.c:392-398 | the simplification for bool symbols does not change the visibility once m has been promoted to y |
| ExprCompare.TransCompareExact | buildroot-2023.02/support/kconfig/expr.c:914-977 | expr_trans_compare with y or n tells exactly whether the expression has that value, if no negated symbol is m |
| ExprCompare.TransCompareOfNegated | buildroot-2023.02/support/kconfig/expr.c:945-946 | on a negated symbol the comparison is right if and only if the symbol is not m |
| SubmenuLimit.TransCompareExactFor | buildroot-2023.02/support/kconfig/expr.c:914-977 | for any set of symbols and any valuation: expr_trans_compare with y and n is right for all conditions in negation normal form that negate no other symbols if and only if none of them is m |
| SubmenuLimit.TransCompareWithMod | buildroot-2023.02/support/kconfig/expr.c:914-977 | with m it is right for symbols and comparisons, whatever their values |
| ExprCompare.TransCompareSound | buildroot-2023.02/support/kconfig/expr.c:914-977 | on a negation normal form the comparison with n errs on one side only |
| ExprCompare.DependsOnMeaning | buildroot-2023.02/support/kconfig/expr.c:871-898 | expr_depends_symbol: such a condition can only hold while the symbol is not n |
| SubmenuLaws.ContainsExact | buildroot-2023.02/support/kconfig/expr.c:843-869 | expr_contains_symbol tells whether the symbol occurs, on either side of a comparison included |
| SubmenuLaws.DependsExact | buildroot-2023.02/support/kconfig/expr.c:871-898 | expr_depends_symbol finds a dependency if and only if an operand that && joins is the symbol, or a comparison of it with y, m or n that is false for n |
| SubmenuLaws.NeedsExact | buildroot-2023.02/support/kconfig/expr.c:871-898 | these are the comparisons that are n whenever the symbol is |
| ExprCompare.SubmenuSound | buildroot-2023.02/support/kconfig/menu.c:448-483 | an entry in an automatic submenu that has no absolute dependency on its symbol is visible only while the prompt of the symbol is, if no negated symbol of its condition is m |
| SubmenuLimit.SubmenuUnsound | buildroot-2023.02/support/kconfig/menu.c:463-483 | if one is, this fails: with A = m, an entry with the condition (S or S = n) and !A, or (S or A) and !A if S is not tristate, joins the submenu of S, whose prompt depends on A = n, and is visible as m while that prompt is not |
| SubmenuLimit.SubmenuExact | buildroot-2023.02/support/kconfig/menu.c:448-483 | for any symbol S of any type, any set of symbols and any valuation: the test can be trusted, for all prompts of S and all entries that negate no other symbols than these, if and only if none of them is m |
| SubmenuLaws.DependentJoins | buildroot-2023.02/support/kconfig/menu.c:454-460 | an entry whose prompt, or else whose node, depends on the symbol absolutely joins its submenu |
| SubmenuLaws.StrangerStays | buildroot-2023.02/support/kconfig/menu.c:456-458 | an entry that does not mention the symbol does not join |
| SubmenuLaws.FreeSymbolTakes | buildroot-2023.02/support/kconfig/menu.c:448-483 | every entry that mentions the symbol joins if the prompt of the symbol has no condition |
| SubmenuLaws.SupersetJoins | buildroot-2023.02/support/kconfig/menu.c:463-483 | otherwise, for a prompt condition of one operand, an entry without an absolute dependency joins if and only if that operand is one of its own |
| SubmenuLaws.NextIsTaken | buildroot-2023.02/support/kconfig/menu.c:452-494 | a symbol without children takes in the node behind it if and only if that joins |
| ExprNodes.EliminateYn | buildroot-2023.02/support/kconfig/expr.c:308-389 | the in-place expr_eliminate_yn leaves a well-formed tree, within its old nodes, of the value form |
| ExprNodes.TransBool | buildroot-2023.02/support/kconfig/expr.c:394-418 | the same for expr_trans_bool |
| ExprNodes.Copy | buildroot-2023.02/support/kconfig/expr.c:65-104 | expr_copy makes an equal tree of new nodes |
| ExprNodes.RewriteM | buildroot-2023.02/support/kconfig/menu.c:81-104 | the in-place rewrite_m leaves a well-formed tree of the value form; further nodes are new |
| ExprNodes.TransformNode | buildroot-2023.02/support/kconfig/expr.c:686-841 | the same for expr_transform, which reuses the nodes below a negation |
| ExprNodes.EliminateLeaves | buildroot-2023.02/support/kconfig/expr.c:149-189 | __expr_eliminate_eq on nodes, with new leaves for those that it takes out, keeps two trees disjoint and well-formed, with the operands of the value form |
| ExprNodes.EliminateEq | buildroot-2023.02/support/kconfig/expr.c:220-240 | the same for expr_eliminate_eq |
| ExprNodes.ExprEq | buildroot-2023.02/support/kconfig/expr.c:251-295 | expr_eq, which works on copies, changes no node that existed and answers as the value form does |
| ExprDupNodes.EliminateDups1 | buildroot-2023.02/support/kconfig/expr.c:588-643 | the round on nodes, given two slots of one tree, keeps the tree well-formed and the slots where they are, and computes the value form and its count; the joins look at the nodes in the slots and replace them by new ones |
| ExprDupNodes.EliminateDups | buildroot-2023.02/support/kconfig/expr.c:656-678 | the loop of expr_eliminate_dups on nodes computes the value form |
| ExprDupNodes.LeavesApart | buildroot-2023.02/support/kconfig/expr.c:588-643 | two different operands of a level have no node in common |
| CachedEvaluator.SymbolTable.CalcValue | buildroot-2023.02/support/kconfig/symbol.c:357-498 | the memoised, re-entrant sym_calc_value keeps every finished symbol at the value of the plain recursive definition, finishes its symbol, and finishes no other symbol of equal or higher rank |
| CachedEvaluator.SymbolTable.Calc | buildroot-2023.02/support/kconfig/symbol.c:357-498 | one calculation settles a symbol with its plain value and SYMBOL_WRITE flag |
| CachedEvaluator.SymbolTable.ExprValue | buildroot-2023.02/support/kconfig/expr.c:1026-1104 | expr_calc_value, which calculates the symbols it meets, yields the plain value of the expression |
| CachedEvaluator.SymbolTable.CalcVisibility | buildroot-2023.02/support/kconfig/symbol.c:209-270 | the visibility and the dependencies that are stored are the plain ones, also while a choice or its members are under way |
| CachedEvaluator.SymbolTable.NewTristate | buildroot-2023.02/support/kconfig/symbol.c:405-445 | the bool and tristate branch computes the plain result from the cached fields |
| CachedEvaluator.SymbolTable.NewString | buildroot-2023.02/support/kconfig/symbol.c:446-462 | the same for int, hex and string symbols before their range is applied |
| CachedEvaluator.SymbolTable.ValidateRange | buildroot-2023.02/support/kconfig/symbol.c:155-187 | sym_validate_range stores the clamped text |
| CachedEvaluator.SymbolTable.ChoiceDefaultOf | buildroot-2023.02/support/kconfig/symbol.c:278-302 | sym_choice_default finds the first visible default, else the first visible member |
| CachedEvaluator.SymbolTable.CalcChoice | buildroot-2023.02/support/kconfig/symbol.c:304-334 | sym_calc_choice picks as the plain definition does |
| CachedEvaluator.InitialConsistent | buildroot-2023.02/support/kconfig/symbol.c:14-26 | before anything has been calculated, with only the constants y, m and n valid, the table is consistent with the plain values of every configuration |
| EvaluatorState.Touch | buildroot-2023.02/support/kconfig/symbol.c:357-498 | changing a symbol under way keeps the table consistent |
| ValueLaws.VisibleExact | buildroot-2023.02/support/kconfig/symbol.c:209-239 | a symbol outside of choices is visible as far as the strongest of its prompts, where m counts as y unless the symbol can be m |
| ValueLaws.DependenciesOfSymbol | buildroot-2023.02/support/kconfig/symbol.c:240-270 | it depends, is selected and is implied as its expressions say, and is implied only while its direct dependency is not n |
| ValueLaws.LeastValue | buildroot-2023.02/support/kconfig/symbol.c:405-445 | the value of a bool or tristate symbol outside of choices is the least one that does not fall short of what selects it, and of the user's value as far as it is visible, or else of its default and what implies it; m only if it can be m and is not implied by y |
| ValueLaws.DefaultOfFirst | buildroot-2023.02/support/kconfig/symbol.c:424-431 | the first default in force counts, limited by its condition |
| ValueLaws.WrittenExact | buildroot-2023.02/support/kconfig/symbol.c:397-434 | a bool or tristate symbol outside of choices gets SYMBOL_WRITE if and only if it is visible or not n, and is not automatic |
| ValueLaws.WrittenMember | buildroot-2023.02/support/kconfig/symbol.c:397-434 | a member of a choice gets it if and only if it is visible or not n |
| ValueLaws.WrittenText | buildroot-2023.02/support/kconfig/symbol.c:397-459 | an int, hex or string symbol gets it if and only if it is visible, or its first default in force names a symbol |
| ValueLaws.TextValueExact | buildroot-2023.02/support/kconfig/symbol.c:446-462 | a text is the user's while it is visible and set, and otherwise that of the symbol that its first default in force names |
| ValueLaws.ValueInRange | buildroot-2023.02/support/kconfig/symbol.c:155-187 | the number of an int or hex symbol lies in its first range in force, if the bounds are in order |
| ValueLaws.BoundOfNumber | buildroot-2023.02/support/kconfig/symbol.c:139-153 | a bound is read in decimal or hex by its own type, and a constant by that of the symbol |
| ValueLaws.CompareTristates | buildroot-2023.02/support/kconfig/expr.c:991-1025 | tristate values compare in the order n, m, y |
| ValueLaws.CompareNumbers | buildroot-2023.02/support/kconfig/expr.c:1064-1103 | int symbols compare as numbers |
| ValueLaws.CompareStringsExact | buildroot-2023.02/support/kconfig/expr.c:1064-1103 | strings compare by their first difference |
| NumberLaws.CompareMixed | buildroot-2023.02/support/kconfig/expr.c:991-1103 | int symbols, hex symbols and constants that are printed numbers compare as numbers |
| NumberLaws.NegativeAgainstHex | buildroot-2023.02/support/kconfig/expr.c:1085-1090 | against a hex symbol a negative number counts as unsigned, with the same 64 bits |
| NumberLaws.CompareWords | buildroot-2023.02/support/kconfig/expr.c:1064-1080 | a constant that is no number compares by its letters |
| NumberLaws.IntegerExact | buildroot-2023.02/support/kconfig/symbol.c:598-610 | sym_string_valid accepts exactly the printed integers, and -0 |
| NumberLaws.HexExact | buildroot-2023.02/support/kconfig/symbol.c:611-619 | it accepts a hex text if and only if strtoll reads all of it, from its first character on |
| ChoiceLaws.PickExact | buildroot-2023.02/support/kconfig/symbol.c:278-334 | a visible choice settles on the user's pick while that is visible, else on what the first default in force names of which the member is visible, else on the first visible member, else on none |
| SymbolValues.CalculateWithAgree | buildroot-2023.02/support/kconfig/symbol.c:357-498 | a calculation depends on symbols of lower rank only |
| SymbolValues.EnvOfTyped | buildroot-2023.02/support/kconfig/symbol.c:442-444 | the calculated values are a typed valuation: bool symbols are never m, nor is any symbol while modules are off |
| MemberPrompts.MembersAreBounded | buildroot-2023.02/support/kconfig/menu.c:319-407 | menu_finalize leaves every prompt in the block of a choice, at any depth and whatever conditions it has, visible only as far as the choice is set |
| MenuGraph.MemberIsBounded | buildroot-2023.02/support/kconfig/menu.c:319-407 | so the prompts of a member, all of whose entries stand in the block, are what the evaluator needs |
| MenuGraph.ChoiceIsMandatory | buildroot-2023.02/support/kconfig/menu.c:588-604 | the reverse dependency that menu_finalize builds for a choice that is not optional, with all its entries, is worth m wherever the choice is visible, and n elsewhere |
| MenuGraph.MenuIsWellFounded | buildroot-2023.02/support/kconfig/symbol.c:1206-1344 | from the menu to the evaluator: if the symbols are those that menu_finalize builds, and sym_check_deps reports nothing, the plain values are well defined |
| SymbolValues.MemberSeen | buildroot-2023.02/support/kconfig/symbol.c:209-239 | a choice and its members agree on which members are visible |
| UserChanges.SolutionIsPlain | buildroot-2023.02/support/kconfig/symbol.c:357-498 | values that satisfy the equation of every symbol are the plain values: there is one solution |
| UserChanges.CalculateLocal | buildroot-2023.02/support/kconfig/symbol.c:357-498 | a value depends on the user's values of symbols of at most its own rank |
| Sessions.CalcAll | buildroot-2023.02/support/kconfig/symbol.c:357-498 | from any table without wrong flags, whatever sequence of symbols is asked for, every valid symbol has its plain value and flag: the order is irrelevant |
| Sessions.ClearAllValid | buildroot-2023.02/support/kconfig/symbol.c:500-509 | sym_clear_all_valid marks the configuration as changed and invalidates every symbol but the constants; afterwards only modules_sym and symbols of at most its rank have been calculated again, with their plain values and flags |
| UserChanges.AcceptedValue | buildroot-2023.02/support/kconfig/symbol.c:511-530 | a value survives the calculation if and only if sym_tristate_within_range admits it, or it is y for a symbol that is implied by y and visible as m, or the forced value of a symbol that is selected at least as far as it is visible, or the value that an invisible symbol has anyway |
| UserChanges.SetPlain | buildroot-2023.02/support/kconfig/symbol.c:532-566 | an accepted value of a symbol outside of choices is the value that the next calculation gives, and nothing of lower rank changes |
| UserChanges.SetMember | buildroot-2023.02/support/kconfig/symbol.c:547-559 | setting a visible member of a choice makes it the pick, and y |
| SettingLaws.SetExact | buildroot-2023.02/support/kconfig/symbol.c:540-559 | setting a symbol changes its own value and mark; a member set to y also changes the pick of its choice, and marks the choice and its visible members; nothing else changes |
| SettingLaws.MemberAdmits | buildroot-2023.02/support/kconfig/symbol.c:511-530 | a visible member of a choice admits y only |
| SettingLaws.PlainAdmits | buildroot-2023.02/support/kconfig/symbol.c:511-530 | another symbol admits the values from what selects it up to its visibility, if the latter exceeds the former, and m only if it can be m and is not implied by y |
| Sessions.SetTristateValue | buildroot-2023.02/support/kconfig/symbol.c:532-566 | sym_set_tristate_value refuses without a trace, or stores the new user values. After a change, which must leave the symbol that controls modules its value, the cache is cleared, the configuration is marked as changed, and the next value is the accepted one. Setting the value that a symbol has invalidates nothing; all values stay as they were, and the cache correct, if and only if the value does not exceed the visibility, and for a member set to y its choice settles as before |
| StaleCache.SetToItsValue | buildroot-2023.02/support/kconfig/symbol.c:532-566 | every tristate symbol that owes a y to its default while it is visible as m is stale once it has been asked for and set to y: the table says y, the next calculation from scratch says m |
| StaleCache.SomeStale | buildroot-2023.02/support/kconfig/symbol.c:532-566 | a concrete configuration in which this happens |
| UserChanges.SetSameExact | buildroot-2023.02/support/kconfig/symbol.c:535-565 | the value that a symbol has, set again, is its value again if and only if it does not exceed the visibility |
| UserChanges.ChoiceExclusive | buildroot-2023.02/support/kconfig/symbol.c:278-334 | if any member of a mandatory bool choice is visible, exactly the settled member is y and the choice is y; otherwise all are n |
| Sessions.RunChoices | buildroot-2023.02/support/kconfig/symbol.c:532-566 | over every run of asking and selecting, in any order, a choice ends exclusive, and the user's pick is the last member whose selection was accepted |
| Sessions.SettleChoice | buildroot-2023.02/support/kconfig/symbol.c:408-410 | once the members are calculated, the cached values of a choice are exclusive |
| DependencyCheck.CheckAll | buildroot-2023.02/support/kconfig/symbol.c:1312-1344 | sym_check_deps on every symbol, choices included, reaches its report only if the dependencies have a cycle, a choice and its members taken as one; without a report the symbols can be ranked one by one, the members of a choice alike; both are equivalences if whoever depends on a choice reaches one of its members as well, as by a select that starts there |
| DependencyCheck.Checker.CheckDeps | buildroot-2023.02/support/kconfig/symbol.c:1312-1344 | one search leaves stack and marks balanced, reports only real cycles, and without a report has ranked its symbol and the choice and members that belong to it, above all that has been ranked before; it reports nothing if the symbols can be ranked, what it follows is below what is under way, and no rank lies between those of a choice that has not been visited and its members |
| DependencyCheck.Checker.VisitChoice | buildroot-2023.02/support/kconfig/symbol.c:1274-1310 | the same for a choice, whose members are marked while its own dependencies are followed, and whose own mark is taken away while those of its members are |
| DependencyCheck.MissesCycle | buildroot-2023.02/support/kconfig/symbol.c:1274-1310 | a symbol with entries in two choices, and a member of the second choice that depends on it: a search that begins with the second choice visits everything and reports nothing, although the choices depend on each other |
| DependencyCheck.FindsCycle | buildroot-2023.02/support/kconfig/symbol.c:1274-1344 | a search of the same symbols that begins with the first choice reports the cycle |
| DependencyCheck.Checker.CheckSymDeps | buildroot-2023.02/support/kconfig/symbol.c:1241-1273 | without a report all dependencies of the symbol are ranked, although searches are abandoned early |
| DependencyCheck.Checker.CheckExprDeps | buildroot-2023.02/support/kconfig/symbol.c:1206-1239 | the same for the symbols of an expression |
| DependencyCheck.StackCycle | buildroot-2023.02/support/kconfig/symbol.c:1316-1319 | a symbol met again on the stack closes a cycle |
| DependencyCheck.DependenciesExact | buildroot-2023.02/support/kconfig/symbol.c:1241-1273 | the search follows what selects a symbol, the conditions of all its properties but select and the member list, and, unless it is a choice, its default values |
| DependencyCheck.RankedIsAcyclic | buildroot-2023.02/support/kconfig/symbol.c:1206-1344 | a ranked graph has no cycle |
| DependencyCheck.GroupsAreRanked | buildroot-2023.02/support/kconfig/symbol.c:1206-1344 | if whoever depends on a choice reaches one of its members, ranks of the single symbols give ranks of the choices with their members |
| DependencyCheck.RankedIsWellFounded | buildroot-2023.02/support/kconfig/symbol.c:1206-1344 | if the choices with their members can be ranked, the plain values are well defined, given that implied values and range bounds are covered |
| DependencyCheck.UnreportedIsWellFounded | buildroot-2023.02/support/kconfig/symbol.c:1206-1344 | in particular, if nothing is reported of symbols of this kind |
| DependencyCheck.WellFoundedIsAcyclic | buildroot-2023.02/support/kconfig/symbol.c:1206-1344 | conversely, in a graph that can be evaluated there is no cycle of symbols and choices, so that nothing is reported |
| Ranges.ParseFormatDecimal | buildroot-2023.02/support/kconfig/symbol.c:177-186 | a printed 64-bit number is valid and parses back to itself |
| Ranges.ParseFormatHex | buildroot-2023.02/support/kconfig/symbol.c:177-186 | a number printed in hex parses back if and only if it is not negative |
| Ranges.ClampNearest | buildroot-2023.02/support/kconfig/symbol.c:155-187 | clamping leaves a number inside its bounds as it is written, and otherwise stores a text of the nearest bound that is in range |
| Ranges.ClampIdempotent | buildroot-2023.02/support/kconfig/symbol.c:155-187 | clamping again changes nothing if and only if the bounds are in order |
| MenuFinalize.FinalizeRoot | buildroot-2023.02/support/kconfig/menu.c:296-605 | menu_finalize finalises every node exactly once, in preorder, keeps nodes and preorder, leaves every node on a list with the right parent, and children only below nodes with a text; in the symbols it records their dependencies, what selects and implies them, and the members of choices, in the order of the walk |
| MenuFinalize.Finalize | buildroot-2023.02/support/kconfig/menu.c:296-605 | the same for any node, together with the siblings that it takes in |
| MenuFinalize.FinalizeChildren | buildroot-2023.02/support/kconfig/menu.c:406-407 | the loop over the children finalises each of them once although their siblings move while it runs |
| MenuFinalize.PropagateChildren | buildroot-2023.02/support/kconfig/menu.c:337-413 | the first loop gives each child, its prompt and all its other properties the conditions that they inherit, adds select and imply properties to the symbols that they name, and moves nothing |
| MenuFinalize.TakeIn | buildroot-2023.02/support/kconfig/menu.c:452-494 | automatic submenu creation moves exactly the run of joining nodes below the symbol |
| MenuFinalize.FlattenChildren | buildroot-2023.02/support/kconfig/menu.c:498-576 | the last loop makes the children of a choice its members, and moves the children of nodes without a text behind them, with their new parent |
| MenuTree.FinalizeFirst | buildroot-2023.02/support/kconfig/menu.c:296-605 | the reshaping conserves the set of nodes, their number and the preorder |
| MenuTree.Steal | buildroot-2023.02/support/kconfig/menu.c:452-494 | a submenu and what stays behind make up the old list, in its order |
| MenuTree.Flatten | buildroot-2023.02/support/kconfig/menu.c:567-576 | flattening conserves nodes and preorder |
| MenuTree.FinalizeTidies | buildroot-2023.02/support/kconfig/menu.c:567-576 | afterwards only nodes with a text have children, at every depth |
| MenuParents.FinalizeKeepsBelow | buildroot-2023.02/support/kconfig/menu.c:567-576 | whatever stands below a node with a text in the Kconfig files, at any depth, still does so afterwards |
| MenuParents.FinalParents | buildroot-2023.02/support/kconfig/menu.c:452-576 | the parent of each node is the nearest node with a text that encloses it, in the Kconfig files or in an automatic submenu |
| MenuTree.StealIsMaximal | buildroot-2023.02/support/kconfig/menu.c:452-484 | the submenu is as long as it can be: what follows it does not join |
| MenuMeaning.FinalizeMeaning | buildroot-2023.02/support/kconfig/menu.c:296-605 | menu_finalize keeps the meaning of the menu: wherever a node ends up and however its conditions are joined and simplified, its prompt is visible, and each of its properties in force, if and only if none of the conditions that enclose it in the Kconfig files, and none of its own, is n |
| MenuMeaning.ConditionValue | buildroot-2023.02/support/kconfig/menu.c:388-402 | a propagated condition is worth exactly the lesser of both conditions for a tristate symbol, and for others if m counts as y; for those no comparison of a tristate symbol with !=n is left |
| MenuGraph.ReverseMeaning | buildroot-2023.02/support/kconfig/menu.c:388-411 | after menu_finalize the reverse dependency of a symbol, and what implies it, is worth as much as the strongest select, or imply, property of the whole menu that names the symbol: none is forgotten or invented, in whatever order nodes are met and moved |
| MenuGraph.ReplayMembers | buildroot-2023.02/support/kconfig/menu.c:500-537 | choices and members agree, and a symbol with entries in several choices is a member of exactly one, once |
| MenuEvents.MembersAreChildren | buildroot-2023.02/support/kconfig/menu.c:498-537 | a symbol is a member of a choice if and only if it ends up as a child of some choice, and of one of those |
| MenuEvents.DependenciesOfEntries | buildroot-2023.02/support/kconfig/menu.c:496 | each entry of a symbol adds its final dependency to the direct dependency of the symbol, and nothing else does |
| MenuGraph.DirectExact | buildroot-2023.02/support/kconfig/menu.c:496 | the direct dependency of a symbol with several entries is worth as much as the strongest of them if and only if all of them have a condition, or none has, or one that has a condition is y: an entry without a condition is dropped |
| MenuOrder.FinalizeKeepsSymbols | buildroot-2023.02/support/kconfig/menu.c:296-605 | whatever menu_finalize moves, the symbols are met in the order of the Kconfig files |
| MenuOrder.FinalizeMenu | buildroot-2023.02/support/kconfig/menu.c:296-605 | it leaves a menu that the writers can walk over, with the conditions and the parents that it should have |
| MenuOrder.FinalizeAndWrite | buildroot-2023.02/support/kconfig/confdata.c:667-738 | menu_finalize and then conf_write_defconfig: exactly the lines that have to be kept, in the order of the Kconfig files |
| MenuWalk.Walk | buildroot-2023.02/support/kconfig/confdata.c:680-735 | the walk without a stack visits every node below the root exactly once, in preorder, and ends |
| MenuWalk.Climb | buildroot-2023.02/support/kconfig/confdata.c:728-733 | going up stops at the next node to the right of an ancestor, or at the end |
| SavedConfig.SavedConfigRoundTrip | buildroot-2023.02/support/kconfig/confdata.c:667-841 | reading back the lines of savedefconfig, or those of conf_write, as the only user values gives every symbol all that it had, if and only if no value is overruled, or demoted |
| SavedConfig.BooleanRoundTrip | buildroot-2023.02/support/kconfig/confdata.c:667-841 | in particular nothing is lost without tristate symbols or without modules; savedefconfig loses nothing if no tristate symbol can be selected |
| LostConfig.RoundTripCanFail | buildroot-2023.02/support/kconfig/confdata.c:693-698 | concrete configurations, of the form that menu_finalize gives them, that savedefconfig, and that conf_write, does not preserve |
| SavedConfig.DefaultTextMeaning | buildroot-2023.02/support/kconfig/symbol.c:732-801 | sym_get_string_default agrees with the evaluator: it is the value that a symbol has while the user does not set it, for a number if and only if its range keeps the default |
| SavedConfig.ReadBack | buildroot-2023.02/support/kconfig/confdata.c:328-405 | the lines give each symbol that has one its value, each choice its pick, and reset the others; a number that is no number is rejected |
| SavedConfig.UnsavedTristate | buildroot-2023.02/support/kconfig/confdata.c:693-698 | a symbol without a line falls back to the value that it had, if and only if it is not overruled |
| UserChanges.KeptTristate | buildroot-2023.02/support/kconfig/symbol.c:411-444 | the value of a symbol, once it is the user value, is its value again if and only if it is not a y that the symbol, visible only as m, owes to its default |
| SavedConfig.PickRestored | buildroot-2023.02/support/kconfig/confdata.c:700-718 | a choice settles on the same member again; leaving out its default member loses no pick |
| SavedLines.PlainLineNeeded | buildroot-2023.02/support/kconfig/confdata.c:693-698 | no line is superfluous: without the line of a bool or tristate symbol outside of choices it reads back differently; without that of an int, hex or string symbol it does if and only if its value is not what its range makes of the default |
| SavedLines.MemberLineNeeded | buildroot-2023.02/support/kconfig/confdata.c:700-718 | only a member that is y is saved, and without its line it reads back as n |
| SavedLines.OtherLinesSaved | buildroot-2023.02/support/kconfig/confdata.c:667-738 | the file without the line of a symbol is what is written if the symbol is passed over |
| MenuWriter.WriteDefconfig | buildroot-2023.02/support/kconfig/confdata.c:667-738 | conf_write_defconfig, from the root menu to the lines: walking over the linked nodes, consuming flags and calculating as it goes, it writes exactly the lines that it has to keep, each symbol once, and leaves the configuration marked as changed |
| MenuWriter.WriteConfig | buildroot-2023.02/support/kconfig/confdata.c:789-825 | conf_write, from the root menu to the lines, writes a line for each symbol that is to be written, once; if the configuration is marked as changed, symbols whose flags have been consumed get none. The mark is reset |
| FileLaws.EntriesExact | buildroot-2023.02/support/kconfig/confdata.c:667-825 | a writer has a line, with its value, for exactly those symbols of the menu that are to be written |
| FileLaws.EntriesInOrder | buildroot-2023.02/support/kconfig/confdata.c:667-825 | the lines come in the order of the menu |
| FileLaws.SetSymbolHasLine | buildroot-2023.02/support/kconfig/confdata.c:789-825 | conf_write has a line that says y or m for every bool or tristate symbol outside of choices that is not n and has a menu node, hidden ones included, unless it is automatic |
| FileLaws.UnsetSymbolHasLine | buildroot-2023.02/support/kconfig/confdata.c:789-825 | one that is n has a line if and only if it is visible, and the line says that it is not set |
| FileLaws.MenuSymbolsExact | buildroot-2023.02/support/kconfig/confdata.c:680-700 | the writers meet exactly the symbols that have a menu node, choices aside |
| MenuWriter.WriteMenu | buildroot-2023.02/support/kconfig/confdata.c:680-735 | the loop of a writer over the menu adds the lines of the symbols of all nodes, in preorder |
| MenuWriter.WriteBoth | buildroot-2023.02/support/kconfig/confdata.c:675-825 | conf_write right after conf_write_defconfig in one process writes no line: the invalidation has marked the configuration as changed, so that the consumed flags are trusted |
| ConfigWriter.SaveSymbol | buildroot-2023.02/support/kconfig/confdata.c:688-720 | one menu node yields a line if and only if its symbol has not been met and its value is not redundant |
| ConfigWriter.DefaultTextOf | buildroot-2023.02/support/kconfig/symbol.c:732-801 | the default computed from cached fields is the default of the plain definition |
| Quoting.EscapeStringValue | buildroot-2023.02/support/kconfig/symbol.c:962-1003 | the buffer holds the quoted text and its terminator and nothing else: the precomputed length is exact |
| Quoting.EscapedSize | buildroot-2023.02/support/kconfig/symbol.c:968-981 | the first pass computes that length |
| Quoting.UnescapeInPlace | buildroot-2023.02/support/kconfig/confdata.c:160-174 | the memmove loop leaves the unescaped text as a C string, and fails if and only if there is no closing quote |
| Quoting.UnescapeEscape | buildroot-2023.02/support/kconfig/confdata.c:160-174 | unescaping undoes escaping, whatever follows the closing quote |
| FileLaws.EscapeExact | buildroot-2023.02/support/kconfig/symbol.c:962-1003 | escaping puts a backslash in front of quotes and backslashes, and changes nothing else |
| FileLaws.UnescapeExact | buildroot-2023.02/support/kconfig/confdata.c:160-174 | unescaping ends at the first quote without a backslash in front, and takes the character behind a backslash as it is |
| ConfigText.PrintedLine | buildroot-2023.02/support/kconfig/confdata.c:312-374 | reading the printed line of a symbol has the effect of its entry, "is not set" lines included |
| ConfigText.TextRoundTrip | buildroot-2023.02/support/kconfig/confdata.c:312-374 | reading printed text has the effect of the printed entries, in their order |
| ConfigText.ListRoundTrip | buildroot-2023.02/support/kconfig/confdata.c:487-507 | printing any list of symbols with their values and reading it restores all of them and sets no other |
| ConfigText.SavedTextRoundTrip | buildroot-2023.02/support/kconfig/confdata.c:667-841 | the round trip of either writer through the text of the file |
| FileLaws.LineOfTristate | buildroot-2023.02/support/kconfig/confdata.c:487-507 | y and m are assigned, and n is a comment that says so |
| FileLaws.LineOfText | buildroot-2023.02/support/kconfig/confdata.c:487-507 | numbers are written as they are, and strings in quotes |
| ReadingLaws.CommentExact | buildroot-2023.02/support/kconfig/confdata.c:315-326 | a line that begins with # sets a symbol to n if and only if, behind two characters, prefix, name, space and "is not set" follow; any other comment is skipped |
| ReadingLaws.AssignmentExact | buildroot-2023.02/support/kconfig/confdata.c:350-374 | any other line assigns a value if and only if it begins with the prefix, a name and an equals sign |
| ReadingLaws.OtherLinesIgnored | buildroot-2023.02/support/kconfig/confdata.c:312-381 | lines that say nothing of any symbol change nothing, and do not mark the configuration as changed |
| ReadingLaws.CommentIgnored | buildroot-2023.02/support/kconfig/confdata.c:315-326 | a comment in which no space is followed by "is not set" is skipped |
| ReadingLaws.ForeignIgnored | buildroot-2023.02/support/kconfig/confdata.c:350-381 | a line with neither # nor the prefix in front, or without =, is skipped |
| ReadingLaws.KnownExact | buildroot-2023.02/support/kconfig/confdata.c:326-369 | a line marks the configuration as changed if and only if the symbol that it names does not exist; y, m and n do |
| ReadingLaws.LineEffect | buildroot-2023.02/support/kconfig/confdata.c:125-193 | "is not set" stands for n, for bool and tristate symbols only; the value of a string has to be quoted |
| ReadingLaws.CutEndExact | buildroot-2023.02/support/kconfig/confdata.c:354-360 | the value ends before the newline, and before a carriage return in front of it |
| ReadingLaws.SplitLinesExact | buildroot-2023.02/support/kconfig/confdata.c:312 | the lines make up the file, and none has a newline but at its end |
| ReadingLaws.LetterExact | buildroot-2023.02/support/kconfig/confdata.c:125-158 | a bool or tristate symbol takes the first letter of its value: y or n, or m if it is tristate |
| ReadingLaws.LastYesPicks | buildroot-2023.02/support/kconfig/confdata.c:382-400 | the pick of a choice is the last member that the file sets to y |
| ReadingLaws.ResetExact | buildroot-2023.02/support/kconfig/confdata.c:286-310 | before the first line choices count as set, and nothing else does |
| ReadingLaws.ChoiceIsRead | buildroot-2023.02/support/kconfig/confdata.c:293-400 | a choice counts as set, and is y if and only if the file sets one of its members to y |
| ConfigReader.ReadConfig | buildroot-2023.02/support/kconfig/confdata.c:250-405 | conf_read_simple, on any file whatever, empties the cache and leaves the user's values of the file; the configuration counts as changed if the file names a symbol that does not exist, where y, m and n do exist |
| ConfigText.ReadTextSetting | buildroot-2023.02/support/kconfig/confdata.c:250-405 | whatever a file says, what the user picks for a choice is one of its members, so that the evaluator can start |
| ConfigReader.ResetUsers | buildroot-2023.02/support/kconfig/confdata.c:293-310 | its first loop resets every user's value and invalidates every symbol but the constants |
| ConfigReader.ProcessLines | buildroot-2023.02/support/kconfig/confdata.c:312-401 | its loop over the lines stores what the lines say, in their order, and marks the configuration as changed for names that do not exist, and only for those |
| ConfigReader.StoreValue | buildroot-2023.02/support/kconfig/confdata.c:125-193 | a value is stored for its symbol and its choice, or rejected |
| ConfigReader.WriteSymbol | buildroot-2023.02/support/kconfig/confdata.c:628-647 | conf_write_symbol prints the line of an entry |
| MenuWriter.SaveAndLoad | buildroot-2023.02/support/kconfig/confdata.c:667-841 | writing a configuration with either writer, from the root menu on, and reading it back, from any state of the cache: all values are as before, if and only if the writer loses none, and the file names no unknown symbol |
| ChoiceConfig.ChoiceRoundTrip | buildroot-2023.02/support/kconfig/confdata.c:667-841 | a configuration with a choice, whose menu is built node by node, goes through either writer and comes back with its pick |
| CrcTable.TableIsDivision | buildroot-2023.02/package/mkpimage/mkpimage.c:104-148 | every entry of the table is eight steps of the division by 0x04C11DB7 |
| Crc.RoundBits | buildroot-2023.02/package/mkpimage/mkpimage.c:150-158 | one round of the loop is eight steps of the division with the byte added to the front |
| Crc.CrcIsRemainder | buildroot-2023.02/package/mkpimage/mkpimage.c:150-158 | crc32 of any message and start value is the remainder of message times x^32, with the start value added to its front, by the generator of section 3.2.9 of IEEE 802.3 |
| Crc.CrcComposes | buildroot-2023.02/package/mkpimage/mkpimage.c:150-158 | the CRC of a concatenation continues the CRC of its front |
| Crc.Crc32 | buildroot-2023.02/package/mkpimage/mkpimage.c:150-158 | the loop computes that CRC |
| Polynomials.RemainderLinear | buildroot-2023.02/package/mkpimage/mkpimage.c:150-158 | the remainder of a sum is the sum of the remainders |
| SocfpgaImage.BranchDecodes | buildroot-2023.02/package/mkpimage/mkpimage.c:163-171 | decoding the instruction of branch by section A8.8.18 of ARM DDI 0406C gives the destination back if and only if it is whole words away and within 32 MiB |
| SocfpgaImage.Branch | buildroot-2023.02/package/mkpimage/mkpimage.c:163-171 | branch writes that instruction and nothing else |
| SocfpgaImage.SignedIsBootable | buildroot-2023.02/package/mkpimage/mkpimage.c:175-255 | in a signed image with room for its header and addressable length, mark, lengths, checksum, CRC and entry all verify, the entry through the trampoline if needed; everything outside of header and CRC is preserved |
| SocfpgaImage.AddHeader | buildroot-2023.02/package/mkpimage/mkpimage.c:175-255 | add_socfpga_header signs a buffer of whole words in place, and refuses any other buffer untouched; it writes behind the buffer if and only if one of its fields or the trampoline does not fit |
| SocfpgaImage.PlanFits | buildroot-2023.02/package/mkpimage/mkpimage.c:299-340 | the padded size is a multiple of 4 within 60 KiB (version 0) or 224 KiB (version 1) and leaves room for the CRC; without -b, the trampoline of a version 1 image overlaps the CRC if and only if the input has at most 84 bytes, and lies outside of the buffer if and only if it has at most 80 |
| ImageLaws.PlanExact | buildroot-2023.02/package/mkpimage/mkpimage.c:266-331 | an input is accepted if and only if it has at least 80 bytes, or a header is added, and it fits with header and CRC into 60 KiB (version 0) or 224 KiB (version 1) |
| ImageLaws.SmallestTotal | buildroot-2023.02/package/mkpimage/mkpimage.c:338-345 | the image is no larger than a whole number of words requires |
| ImageLaws.HeaderV0 | buildroot-2023.02/package/mkpimage/mkpimage.c:205-244 | the version 0 header byte by byte, with the sum of its ten bytes |
| ImageLaws.HeaderV1 | buildroot-2023.02/package/mkpimage/mkpimage.c:205-244 | the version 1 header byte by byte, with the sum of its eighteen bytes |
| ImageLaws.StoredCrc | buildroot-2023.02/package/mkpimage/mkpimage.c:249-252 | the last word of an image that boots is the complement of the CRC of all before it, which starts with all bits set |
| SocfpgaImage.OverlappedBoots | buildroot-2023.02/package/mkpimage/mkpimage.c:175-255 | where the CRC takes the place of the trampoline, the entry works if and only if the CRC happens to be the branch instruction |
| SocfpgaImage.SmallestImageOverflows | buildroot-2023.02/package/mkpimage/mkpimage.c:299-340 | the smallest accepted version 1 image: an input of 80 bytes gets a buffer of 84, and the trampoline is written behind it |
| SocfpgaImage.BareboxBranches | buildroot-2023.02/package/mkpimage/mkpimage.c:45-66 | the added header jumps behind itself from its first and last word, and loops in its exception vectors |
| ImageLaws.BareboxSpells | buildroot-2023.02/package/mkpimage/mkpimage.c:54-55 | behind its exception vectors the added header spells "barebox" |
| SocfpgaImage.MakeImage | buildroot-2023.02/package/mkpimage/mkpimage.c:262-376 | from the input bytes to the output, for every input: rejected if and only if it is too large or too small, written beyond its end if and only if version 1 gets 80 bytes without -b, and otherwise bootable if and only if the header has room or the CRC happens to be the branch instruction |
| SocfpgaImage.InputPreserved | buildroot-2023.02/package/mkpimage/mkpimage.c:346-366 | with -b the input is in the output unchanged |

## Left out

- ExprTransform.TransformMeaning: premised on ordered comparisons without S_OTHER operands, on which it is false.
- ExprDuplicates.EliminateDuplicatesMeaning: premised on tristate symbols being compared with no constant but y, m and n; for single expressions the premise is not necessary, for all expressions with the same constants DuplicatesLimit.EliminateDuplicatesExact is exact.
- ExprCompare.TransCompareExact: one direction only for a single expression, where the error of one operand can be hidden by another; for all expressions that negate the same symbols SubmenuLimit.TransCompareExactFor is an equivalence.
- ExprCompare.SubmenuSound: premised on no negated symbol of the entry's condition being m; for single entries the premise is not necessary, for all entries with the same negated symbols it is (SubmenuLimit.SubmenuExact).
- EqualityLaws.SameExact: only without y and n as operands; with them expr_eq is no equivalence (EqualityLaws.ConstantsMatter).
- SubmenuLaws.SupersetJoins: only for a prompt condition of one operand; for others SubmenuLimit.SubmenuExact says when the test can be trusted.
- MenuEvents.MembersAreChildren: premised on every choice having a prompt with a text, about which the code warns.
- ValueLaws.ValueInRange: premised on bounds that are in order.
- Sessions.SetTristateValue: a change must leave the symbol that controls modules its value, which the Kconfig files of Buildroot do not have; for an int, hex or string symbol, to which the function can only be applied with n, the condition for setting the same value again is not exact.
- Sessions.RunChoices: only for members that are bool and have no defaults.
- UserChanges.ChoiceExclusive: only for mandatory bool choices.
- DependencyCheck.CheckAll: exact only if whoever depends on a choice reaches one of its members; otherwise the order of the search decides.
- DependencyCheck.UnreportedIsWellFounded: what imply, ranges and direct dependencies look at is premised to be covered by the dependencies that are checked; the search does not follow it. Whoever depends on a choice must reach one of its members, because the search can miss other cycles.
- SavedConfig.SavedConfigRoundTrip: under the premises listed above.
- SavedLines.PlainLineNeeded: premised on no value being overruled.
- SocfpgaImage.AddHeader: where it would write behind the buffer, what it leaves in the buffer is not stated: the behaviour of the C code is undefined there.
- Optional and tristate choices, symbols of type S_OTHER, and changes of the value of MODULES: the code is not stable or not exact there.
- `SYMBOL_NEED_SET_CHOICE_VALUES`, `SYMBOL_CHANGED` and all warnings. Of the change counter only whether it is zero is kept.
- The fields of the symbols are entries of one map in the symbol table, not separate heap objects.
- E_LIST, E_RANGE and E_NONE nodes, and freeing memory: what is freed is out of reach. `trans_count` is the count that a round returns.
- MenuGraph.MenuIsWellFounded: that whoever depends on a choice reaches one of its members is premised, not derived from the menu.
- In `menu_finalize`: the types of choice values, what it does for tristate choices, and the checks of properties.
- `sym_set_string_value`, `sym_toggle_tristate_value`, randomised configurations, and the front ends.
- In `confdata.c`: opening and naming files, headings and comments, the writers of `autoconf.h` and its kin, line buffers, other definitions than the user's, and the clean-up in `conf_read` after `conf_read_simple`.
- The grammar of Kconfig files: the models begin with symbols and menus that are built.
- In `mkpimage.c`: options, files and their errors, and hosts that store words with the highest byte first. Offsets are unbounded integers; those of accepted images fit into an int.
