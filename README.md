# Yosys `hierarchy` pass, modelled in Dafny

This project models the core of the Yosys `hierarchy` pass
(`passes/hierarchy/hierarchy.cc`). The pass works on an RTLIL design, a
dictionary from module names to modules. Each module has wires (some of
them ports with a position, `port_id`), cells that instantiate other modules
or internal `$` primitives, and attributes such as `\blackbox` and `\top`.

The pass:

- **`-generate`**: splits its arguments into port declarations
  (`i@2:A`, `o:*`, `io:X`) and cell-type patterns. It then creates a black-box
  module for every cell type that the design uses but does not define. The
  ports come from how the instances are connected: positional declarations
  take their own slot, and the remaining names take the free slots through
  wildcard declarations.
- **`expand_module`**: resolves every cell of a module.
  - An `$array:<idx>:<num>:<type>` prefix is parsed and dropped.
  - An `$abstract` template is derived.
  - A missing type is loaded from the library directories, or reported under
    `-check`.
  - A parametrised, not black-box, module is derived.
  - Finally every array cell's connections are sliced to the element the
    cell stands for.
- **`hierarchy`**: deletes the modules not reachable from the top module,
  keeping black boxes unless `-purge_lib` is given, and keeping `$abstract`
  templates on the first pass.
- **The driver**:
  - finds the top module (the last one carrying `\top`, if `-top` was not
    given);
  - prunes;
  - sweeps `expand_module` over the design until a sweep reports that it
    resolved nothing (stripping an `$array:` prefix and slicing connections
    do not count, so the last sweep may still change the design);
  - prunes again if some sweep resolved a cell;
  - marks exactly the top module with `\top`;
  - unless `-keep_positionals` is given, renames positional connections
    (`$1`, `$2`, …) of every instance of a design module to the names of that
    module's ports.

How the model is laid out:

- The design is a `class Design` whose field `modules: map<Id, Module>` the
  pass's methods update.
- Modules, cells and wires are datatypes.
- Every loop of the source is a `method` with a `while` loop. Each loop is
  proved against a function or predicate that states what the source
  computes. The properties the pass promises are proved about those
  functions as lemmas.

Order matters in several places, for example which module is the top and
which error is reported first:

- `std::map` and `std::set` iteration follows byte-lexicographic order on
  names (`CStrings.Less`, `CStrings.Ascending`).
- C library behaviour is written out: `strtol`, `atoi` with its 32-bit
  truncation, `find_first_of` returning `npos` into an `int`, and `substr`.

Modules:

| module | file | what it holds |
|---|---|---|
| `Wrappers` | wrappers.dfy | `Option`, `Result` |
| `CStrings` | cstrings.dfy | name order, `strtol`/`atoi`, `find_first_of`, `substr`, decimal rendering |
| `Rtlil` | rtlil.dfy | the design data model, errors, and the `Env` of foreign calls |
| `PortDecls` | portdecls.dfy | the `-generate` argument parser |
| `Generate` | generate.dfy | cell-type selection, port observation, positional claims |
| `Wildcards` | wildcards.dfy | wildcard port assignment |
| `Stubs` | stubs.dfy | the black-box module built for one cell type |
| `ArrayCells` | arraycells.dfy | array types and array-cell slicing |
| `Resolve` | resolve.dfy | the resolution of one cell and the library search |
| `Expand` | expand.dfy | `expand_module`, one sweep and the fixed point, as functions with loop methods |
| `Reach` | reach.dfy | reachability from the top module and pruning |
| `Remap` | remap.dfy | positional-connection renaming |
| `Hierarchy` | design.dfy | the `Design` class and the pass driver |

## Model

| member | source | states |
|---|---|---|
| CStrings.LessIrreflexive | passes/hierarchy/hierarchy.cc:40-41 | no name comes before itself in the order `std::map`/`std::set` walk names in |
| CStrings.LessTotal | passes/hierarchy/hierarchy.cc:40-41 | any two distinct names are ordered one way or the other |
| CStrings.LessTransitive | passes/hierarchy/hierarchy.cc:40-41 | the name order is transitive |
| CStrings.Ascending | passes/hierarchy/hierarchy.cc:51 | the iteration sequence of a set holds each element exactly once |
| CStrings.AscendingSorted | passes/hierarchy/hierarchy.cc:51 | that sequence is strictly ascending |
| CStrings.Least | passes/hierarchy/hierarchy.cc:95 | `*portnames.begin()` is the least element of a non-empty set |
| CStrings.Strtol | passes/hierarchy/hierarchy.cc:373 | `strtol` stays within `long`; when no digit is read it returns 0 and leaves the end pointer at the start; it reads only white space, a sign and digits |
| CStrings.StrtolDecimal | passes/hierarchy/hierarchy.cc:373 | `strtol` reads back exactly the digits `%d` printed, and stops at the first non-digit |
| CStrings.ToInt32 | passes/hierarchy/hierarchy.cc:149-150 | the conversion to `int` keeps the value modulo 2^32 and leaves values in range unchanged |
| CStrings.AtoiDecimal | passes/hierarchy/hierarchy.cc:149-150 | `atoi` of a printed number followed by a non-digit is that number |
| CStrings.Find | passes/hierarchy/hierarchy.cc:146-148 | `find_first_of` gives the first occurrence at or after `from`, or -1 when there is none |
| CStrings.Substr | passes/hierarchy/hierarchy.cc:149-151 | `substr` is a prefix of the suffix, and a negative (npos) length takes the rest |
| PortDecls.DirectionEnd | passes/hierarchy/hierarchy.cc:363-370 | the direction letters `io`, `i` or `o` the argument starts with hold no `:` and lie within the text |
| PortDecls.ColonFrom | passes/hierarchy/hierarchy.cc:371-379 | the `:` is expected where `strtol` stopped after an `@`, or right after the direction letters; no `:` comes before that place |
| PortDecls.ParseToken | passes/hierarchy/hierarchy.cc:361-392 | an argument is a declaration exactly when its text before any NUL follows the grammar `IsPortDecl`; a declaration is well formed and has the directions of its `io`/`i`/`o` prefix; its name is the text after the first `:`; its position is the `strtol` value after `@`, and is at least 1 exactly when there is an `@`; a missing `:`, an empty name or a number below 1 after `@` makes the argument a cell-type pattern, as does any other beginning |
| PortDecls.Directions | passes/hierarchy/hierarchy.cc:363-370 | `io` makes an input-output port, a lone `i` an input and a lone `o` an output; any other first letter makes the argument a cell-type pattern |
| PortDecls.DirectionsRules | passes/hierarchy/hierarchy.cc:363-388 | on text without a NUL, the argument is a declaration exactly when it follows the grammar, its name is what follows the first `:`, and a missing `:`, a `:` at the end or an `@` without an index of at least 1 makes it a cell-type pattern |
| PortDecls.DirectionRules | passes/hierarchy/hierarchy.cc:371-388 | once the direction letters are read, the argument is a declaration exactly when the rest follows the grammar, and its name is then the text after the first `:` |
| PortDecls.AfterDirection | passes/hierarchy/hierarchy.cc:371-378 | after an `@`, only an index of at least 1 keeps the argument a declaration; it is one exactly when the `:` stands where `strtol` stopped and a name follows; the declaration has the directions already read, the parsed index (0 without `@`) and the text after the `:` as its name |
| PortDecls.AfterIndex | passes/hierarchy/hierarchy.cc:379-383 | the argument is a declaration exactly when a `:` and a non-empty name follow the index; the name is the rest of the text |
| PortDecls.ParseRender | passes/hierarchy/hierarchy.cc:361-388 | every well-formed declaration rendered as text parses back to itself |
| PortDecls.EmptyNameIsCellType | passes/hierarchy/hierarchy.cc:381-382 | a declaration with an empty name is taken as a cell-type pattern |
| PortDecls.ZeroIndexIsCellType | passes/hierarchy/hierarchy.cc:373-375 | a position of 0 is refused: the argument becomes a cell-type pattern |
| PortDecls.ArgumentsPartitioned | passes/hierarchy/hierarchy.cc:360-393 | each argument goes to exactly one of the two lists, and every declaration is well formed |
| PortDecls.ParseGenerateArgs | passes/hierarchy/hierarchy.cc:360-393 | the loop fills the declaration list and the pattern list (unescaped) in argument order |
| Generate.UsedTypes | passes/hierarchy/hierarchy.cc:40-41 | a type occurs in the design exactly when it has an instance |
| Generate.FindCellTypes | passes/hierarchy/hierarchy.cc:38-49 | a type is found exactly when it has an instance, is not internal, is not a module, and some pattern matches its unescaped name |
| Generate.ObserveCell | passes/hierarchy/hierarchy.cc:61-65 | one cell adds its non-`$` connection names, and each connected name's width becomes the maximum of the old width and this signal's width; other widths stay |
| Generate.ObservePorts | passes/hierarchy/hierarchy.cc:53-68 | the port names are those connected on some instance, and every width is the maximum over all instances |
| Generate.CollectPortNames | passes/hierarchy/hierarchy.cc:70-72 | the port names are the observed names plus the names of positional declarations |
| Generate.InitialIndices | passes/hierarchy/hierarchy.cc:74-76 | the free indices are exactly {1..n} |
| Generate.IndexCheck | passes/hierarchy/hierarchy.cc:85-88 | a positional index passes exactly when it is at most the port count and still free; a range error exactly when it exceeds the count; a conflict otherwise |
| Generate.AsWrittenNeverReportsRange | passes/hierarchy/hierarchy.cc:85-86 | the range check as written can never fire, and passes exactly when the intended check does |
| Generate.AsWrittenMisreportsRange | passes/hierarchy/hierarchy.cc:85-88 | an out-of-range index is reported as a conflict by the check as written |
| Generate.ClaimStep | passes/hierarchy/hierarchy.cc:80-92 | a declaration without a position is skipped; a positional one either claims its slot and widens its name, keeping the claim invariant, or fails (all earlier declarations having passed) with the intended range error that names the port count, or with a conflict with an earlier declaration at the same index |
| Generate.FailedAtUnique | passes/hierarchy/hierarchy.cc:77-92 | only one declaration can be the first to fail, and it determines the error |
| Generate.ClaimPositional | passes/hierarchy/hierarchy.cc:70-92 | the positional phase succeeds exactly when all positions are valid and distinct; otherwise the error is the one the first failing declaration raises, every earlier one having passed; on success every positional declaration is in its slot, the widths are those the declarations widened in order, and the free indices and pending names are the rest |
| Generate.ClaimWidthsAgree | passes/hierarchy/hierarchy.cc:79-80 | the widths after the positional declarations depend only on the width of each name |
| Generate.ChainedWidth | passes/hierarchy/hierarchy.cc:79-80 | with `i@1:$2 i@2:B`, the width given to the port `$2` flows on to `B`, so the exact width is not the widest of a name and its own connection |
| Wildcards.FindWildcard | passes/hierarchy/hierarchy.cc:96-107 | the result is the first declaration without a position whose pattern matches the name, or none when there is no such declaration |
| Wildcards.LeastIndexExists | passes/hierarchy/hierarchy.cc:100 | a non-empty index set has a least element |
| Wildcards.TakeWildcard | passes/hierarchy/hierarchy.cc:95-110 | placing the least pending name at the least free index keeps the assignment invariant |
| Wildcards.WildStep | passes/hierarchy/hierarchy.cc:94-111 | one round either places the least pending name into a slot or fails with that name: "can't match" exactly when no wildcard matches it, and out of indices only when none is left |
| Wildcards.WildAll | passes/hierarchy/hierarchy.cc:94-111 | the loop ends with no pending name, or stops at the least name still pending, with the error its round raises |
| Wildcards.BelowGrows | passes/hierarchy/hierarchy.cc:95 | a later pending name has strictly more pending names before it |
| Wildcards.AscendingCard | passes/hierarchy/hierarchy.cc:95 | the names placed in strictly ascending order are as many as the rounds that placed them |
| Wildcards.BelowPlaced | passes/hierarchy/hierarchy.cc:95-111 | before the least pending name come exactly the names already placed |
| Wildcards.WildError | passes/hierarchy/hierarchy.cc:94-111 | the error of the failing round is `FirstWildFailure` of the names and indices the phase started with |
| Wildcards.FirstWildFailureUnique | passes/hierarchy/hierarchy.cc:94-111 | the name and kind of the wildcard error are determined by the names, the free index count and the declarations |
| Wildcards.WildSuccess | passes/hierarchy/hierarchy.cc:94-113 | a finished loop filled every free slot, in ascending name order, with the name's first matching wildcard |
| Wildcards.AssignWildcards | passes/hierarchy/hierarchy.cc:94-113 | it succeeds exactly when every pending name has a matching wildcard and the free slots suffice; it then fills every free slot, names ascending with slots; otherwise the error names the least pending name whose round fails: every name before it matched a wildcard and took an index, and it matches none ("can't match") or the names before it took every free index |
| Stubs.ClaimFacts | passes/hierarchy/hierarchy.cc:70-92 | after the positional phase the free indices are the unclaimed positions, the pending names are the non-positional names, and their counts agree exactly when positional names are distinct |
| Stubs.NamesDistinct | passes/hierarchy/hierarchy.cc:120-125 | no name lands in two slots of `ports` |
| Stubs.NamesCovered | passes/hierarchy/hierarchy.cc:120-125 | the slots hold exactly the port names |
| Stubs.BuildStub | passes/hierarchy/hierarchy.cc:115-125 | the module created has no cells, is a black box, and has one wire per slot with that declaration's name, width, position and directions |
| Stubs.StubIds | passes/hierarchy/hierarchy.cc:120-125 | the port ids of the generated module are exactly 1..n, each used once |
| Stubs.StubPositional | passes/hierarchy/hierarchy.cc:79-83 | a positional declaration's wire has its position and directions, and exactly the width its name has once every positional declaration has widened its name in order; that is at least 1, at least the width on `$<index>`, and the widest of the two when positional names are plain |
| Stubs.StubWildcardDirections | passes/hierarchy/hierarchy.cc:97-104 | a name no positional declaration took has the directions of its first wildcard and a width of at least 1 |
| Stubs.StubWildcardOrder | passes/hierarchy/hierarchy.cc:95-103 | the wildcard-assigned names take the free positions in ascending name order |
| Stubs.StubOfWidths | passes/hierarchy/hierarchy.cc:53-125 | the module described depends only on the width of each name, so any two maps of the maximum widths over the instances describe the same module |
| Stubs.GenerateModule | passes/hierarchy/hierarchy.cc:51-131 | for one cell type, a module is created exactly when all positions are valid and distinct and every other name matches a wildcard; it is the black box `StubOf` describes; otherwise the error is the one the first failing positional declaration raises (with the intended range error for an index beyond the port count), or, when all positions are valid, the one the first failing name of the wildcard phase raises |
| ArrayCells.ParseRendered | passes/hierarchy/hierarchy.cc:144-151 | parsing `$array:<idx>:<num>:<base>` returns the index, count and base type, even when the base contains `:` |
| ArrayCells.ParseLaidOut | passes/hierarchy/hierarchy.cc:144-151 | any type laid out with those fields parses to them |
| ArrayCells.FirstWithPortId | passes/hierarchy/hierarchy.cc:226-230 | the wire found for a `$<n>` port is the first one in name order with port id n; it is none exactly when no wire has that id |
| ArrayCells.FindPortWire | passes/hierarchy/hierarchy.cc:226-230 | the wire loop stops at that first wire |
| ArrayCells.SliceRule | passes/hierarchy/hierarchy.cc:231-238 | a connection as wide as the port is kept; one `num` times as wide gives element `idx` if it is in range; anything else is an error |
| ArrayCells.SliceElement | passes/hierarchy/hierarchy.cc:236-238 | for a connection that concatenates the array elements, the slice is the cell's own element |
| ArrayCells.SliceCell | passes/hierarchy/hierarchy.cc:221-238 | a cell is sliced exactly when every connection can be; otherwise the error is that of the first connection in key order that cannot |
| ArrayCells.SliceLoop | passes/hierarchy/hierarchy.cc:221-238 | the loop slices every connection in order, or stops at the first that fails with everything before it sliceable |
| ArrayCells.SliceCellIsSliced | passes/hierarchy/hierarchy.cc:221-238 | `SliceCell`'s contract determines its result uniquely |
| Resolve.LibraryFileFirst | passes/hierarchy/hierarchy.cc:167-184 | the file loaded comes from the first library directory that has a `.v` or `.il` file for the type; nothing is loaded exactly when no directory has one |
| Resolve.LibraryFileExists | passes/hierarchy/hierarchy.cc:167-184 | the file loaded exists and is `<dir>/<name>.v` or `<dir>/<name>.il` |
| Resolve.FindLibraryFile | passes/hierarchy/hierarchy.cc:167-184 | the library search loop picks that file |
| Resolve.AbstractFirst | passes/hierarchy/hierarchy.cc:156-162 | an `$abstract` template for a missing type is derived first; the cell then instantiates the derived module with no parameters, and a failed derive is the error |
| Resolve.PrimitiveLeaf | passes/hierarchy/hierarchy.cc:164-165 | a missing `$` type without a template changes nothing |
| Resolve.MissingModule | passes/hierarchy/hierarchy.cc:167-194 | a missing type with no library file is an error under `-check` and is left alone otherwise; a library file that does not declare the type is an error; a load that succeeds adds the type |
| Resolve.ParametersDerived | passes/hierarchy/hierarchy.cc:197-205 | a parametrised cell of a module that is not a black box instantiates the derived module, with its parameters cleared |
| Resolve.DerivedCell | passes/hierarchy/hierarchy.cc:159-160 | deriving adds exactly the derived module and keeps every other module |
| Resolve.ResolvedConcrete | passes/hierarchy/hierarchy.cc:153-206 | after resolution a cell whose type is a module has no parameters unless that module is a black box; otherwise nothing changed, and `-check` was off or the type is internal |
| Resolve.ResolveSettles | passes/hierarchy/hierarchy.cc:153-206 | resolving a resolved cell again, in the design it left, does nothing |
| Resolve.ResolveIdle | passes/hierarchy/hierarchy.cc:153-206 | when `did_something` stays false, the design and the cell are unchanged |
| Resolve.ResolveOne | passes/hierarchy/hierarchy.cc:155-205 | the loop body computes `ResolveCell`, with the library search as a loop |
| Resolve.ResolveCell | passes/hierarchy/hierarchy.cc:153-206 | resolution only adds modules and never changes an existing one |
| Expand.ExpandExtends | passes/hierarchy/hierarchy.cc:134-242 | `expand_module` adds modules; it changes cells of the expanded module only, and adds or removes none |
| Expand.ExpandIdle | passes/hierarchy/hierarchy.cc:134-242 | without array cells, a module for which nothing was done is left as it was |
| Expand.ExpandKnown | passes/hierarchy/hierarchy.cc:186-188 | under `-check`, every cell afterwards has a type that is a module of the design or is internal |
| Expand.ResolveCellsExtends | passes/hierarchy/hierarchy.cc:140-207 | the first loop adds modules, changes only the cells it visits, and keeps `did_something` once it is set |
| Expand.ResolveCellsIdle | passes/hierarchy/hierarchy.cc:140-207 | with no array cell, a loop that did nothing leaves the design unchanged |
| Expand.SliceCellsExtends | passes/hierarchy/hierarchy.cc:209-239 | slicing adds no module and changes only connections |
| Expand.ResolveAll | passes/hierarchy/hierarchy.cc:140-207 | the first loop over the cells in key order computes `ResolveCells` and collects `array_cells` |
| Expand.ResolveLoop | passes/hierarchy/hierarchy.cc:140-207 | the loop over any order of the cells computes `ResolveCells`, and `array_cells` holds exactly the array cells with their parsed fields |
| Expand.ResolveStep | passes/hierarchy/hierarchy.cc:142-205 | the array prefix is parsed and dropped, then the cell is resolved |
| Expand.SliceAll | passes/hierarchy/hierarchy.cc:209-239 | the second loop computes `SliceArrays` |
| Expand.ExpandOne | passes/hierarchy/hierarchy.cc:134-242 | `expand_module` on a design value computes `Expand` |
| Expand.SweepGrows | passes/hierarchy/hierarchy.cc:447-457 | a sweep removes no module |
| Expand.FixedPointGrows | passes/hierarchy/hierarchy.cc:444-460 | the sweeps together remove no module |
| Reach.ReachableClosed | passes/hierarchy/hierarchy.cc:244-259 | the set of modules reachable from the top contains the top and is closed under instantiation |
| Reach.ClosedHoldsReachable | passes/hierarchy/hierarchy.cc:244-259 | every closed set that holds the top holds everything the top reaches |
| Reach.UsedIsReachable | passes/hierarchy/hierarchy.cc:244-259 | a closed set holding the top whose members the top all reaches is exactly the reachable set |
| Reach.PruneKeepsReachable | passes/hierarchy/hierarchy.cc:261-282 | after pruning, the top reaches exactly the modules it reached before |
| Reach.PruneIdempotent | passes/hierarchy/hierarchy.cc:261-282 | a second `hierarchy` with the same flags deletes nothing more |
| Reach.PruneKeepsTop | passes/hierarchy/hierarchy.cc:261-282 | the top module is never deleted |
| Reach.PrunedPath | passes/hierarchy/hierarchy.cc:270-279 | every instantiation chain in the pruned design is one in the original |
| Reach.UsedPathKept | passes/hierarchy/hierarchy.cc:270-279 | every chain through used modules survives pruning |
| Remap.PortPositionsSound | passes/hierarchy/hierarchy.cc:494-499 | every recorded position belongs to a port wire at that position, and every port wire's position is recorded |
| Remap.BuildPortPositions | passes/hierarchy/hierarchy.cc:494-499 | the loop records, for each position, the last wire in name order at that position |
| Remap.PositionMaps | passes/hierarchy/hierarchy.cc:494-499 | `pos_map` holds the port positions of exactly the modules in `pos_mods` |
| Remap.KeptKeys | passes/hierarchy/hierarchy.cc:507-518 | a non-positional key, or a positional key whose position is not a port, keeps its name; any other key takes the port's name |
| Remap.RemapKeepsSignals | passes/hierarchy/hierarchy.cc:506-519 | every new connection carries the signal of an old connection renamed to it, and every old connection's new key is connected |
| Remap.RemapInjective | passes/hierarchy/hierarchy.cc:506-519 | when no two keys are renamed alike, every signal keeps its connection under its new key |
| Remap.RemapNoPositionals | passes/hierarchy/hierarchy.cc:506-519 | a cell without positional connections is left as it is |
| Remap.RemapLeavesUnmapped | passes/hierarchy/hierarchy.cc:507-518 | afterwards every key is an old key that was not renamed, or the name of a port |
| Remap.RemapLoop | passes/hierarchy/hierarchy.cc:506-518 | the loop writes every renamed key; each key's value comes from the last connection, in order, renamed to it |
| Remap.RemapConnections | passes/hierarchy/hierarchy.cc:506-519 | the new connection map of one cell is `Remapped`, the renaming with later keys winning |
| Remap.ScanPositional | passes/hierarchy/hierarchy.cc:486-491 | the scan finds a positional key exactly when the cell has one |
| Remap.CellWork | passes/hierarchy/hierarchy.cc:484-491 | the cells of one module that go into `pos_work` are exactly those with a positional connection to a design module, and their types go into `pos_mods` |
| Remap.PositionalWork | passes/hierarchy/hierarchy.cc:481-492 | `pos_work` holds exactly the cells with a positional connection whose type is a module, and `pos_mods` holds their types |
| Remap.RemapCellUniform | passes/hierarchy/hierarchy.cc:481-519 | a cell of a design module has its connections renamed by that module's positions; any other cell is unchanged; type and parameters never change |
| Remap.RemappedDesignKeeps | passes/hierarchy/hierarchy.cc:475-521 | the remap keeps the modules, their wires, attributes and cell names, and changes only connections |
| Remap.RemapWorkDone | passes/hierarchy/hierarchy.cc:503-520 | once every cell of `pos_work` is processed, the design is the remapped design |
| Hierarchy.TopOf | passes/hierarchy/hierarchy.cc:436-439 | without `-top`, the top is the last module in name order that carries `\top`, and there is none exactly when no module carries it |
| Hierarchy.RetoppedOnlyTop | passes/hierarchy/hierarchy.cc:467-473 | afterwards exactly the top module carries `\top`; nothing else changes |
| Hierarchy.Design.Worker | passes/hierarchy/hierarchy.cc:244-259 | each module is entered at most once; the marked set grows and contains the visited module; everything newly marked is reachable from it; and the marked set stays closed except under modules still on the call stack |
| Hierarchy.Design.Unused | passes/hierarchy/hierarchy.cc:265-268 | `del_modules` holds exactly the modules not used |
| Hierarchy.Design.DeleteUnused | passes/hierarchy/hierarchy.cc:270-279 | a module survives exactly when it is used or protected (an `$abstract` template on the first pass, a black box without `-purge_lib`); survivors are unchanged |
| Hierarchy.Design.Hierarchy | passes/hierarchy/hierarchy.cc:261-282 | the design becomes its pruning by the set of modules reachable from the top |
| Hierarchy.Design.ExpandModule | passes/hierarchy/hierarchy.cc:134-242 | the design becomes `Expand`'s result and the return value is its `did_something`; on an error the error is `Expand`'s, and the model keeps the old design where the source leaves a partly changed one |
| Hierarchy.Design.Sweep | passes/hierarchy/hierarchy.cc:447-457 | one sweep expands each module of the snapshot of names that has not vanished, as `SweepOnce` |
| Hierarchy.Design.Sweeps | passes/hierarchy/hierarchy.cc:444-460 | the fixed-point loop of sweeps, as `FixedPoint`, returning `did_something_once` |
| Hierarchy.Design.FindTop | passes/hierarchy/hierarchy.cc:436-439 | the loop finds `TopOf` |
| Hierarchy.Design.SetTop | passes/hierarchy/hierarchy.cc:467-473 | the loop computes `Retopped` |
| Hierarchy.Design.RemapPositionals | passes/hierarchy/hierarchy.cc:475-521 | the design becomes the remapped design |
| Hierarchy.Design.Generate | passes/hierarchy/hierarchy.cc:36-132 | old modules are kept; each new module is a selected type with the stub `GenerateModule` describes; on success every selected type has a module; on failure the least selected type without a module failed with the error `GenerateModule` describes for it, and all selected types before it were generated |
| Hierarchy.Design.GenerateMode | passes/hierarchy/hierarchy.cc:360-393 | `hierarchy -generate` runs `generate` on the patterns and declarations parsed from its arguments |
| Hierarchy.Design.Run | passes/hierarchy/hierarchy.cc:434-521 | once its options are read, the pass leaves the design `Pass` describes, or the error `Pass` reports |
| Hierarchy.GenerateLoop | passes/hierarchy/hierarchy.cc:51-131 | the loop over the types, in order, keeps old modules and creates each type's stub, or stops at the first type that fails with every earlier type created |
| Hierarchy.GenerateConcludes | passes/hierarchy/hierarchy.cc:36-132 | what the loop over the found types leaves is what `generate` promises for the patterns |
| Hierarchy.FirstFailure | passes/hierarchy/hierarchy.cc:51 | every found type before the failing one in name order was generated |
| Hierarchy.TopSurvives | passes/hierarchy/hierarchy.cc:441-465 | the chosen top module survives the first pruning, the sweeps and the second pruning |
| Hierarchy.PassMarksTop | passes/hierarchy/hierarchy.cc:436-473 | with a top module, the design the pass leaves holds it, and exactly it carries `\top` |

## Left out

- Logging is not modelled: the `log`, `log_header` and `log_push`/`log_pop` calls, the help text, and the parameter names `generate` collects only to log them (hierarchy.cc:54, 66-67, 127-128).
- Option scanning is not modelled. That covers `-check`, `-purge_lib`, `-keep_positionals` and `-libdir`, and the rule that `-generate` is only taken when neither `-check` nor `-top` came before it. Their values are parameters of `Design.Run` and `Design.GenerateMode`.
- `-top <name>` is not modelled: looking the name up, deriving it from an `$abstract` template when it is missing, and the "not found" error (hierarchy.cc:411-424). `Design.Run` takes the module `-top` named, already checked to be in the design.
- Foreign calls are parameters of the model, passed in `Rtlil.Env`. These are `RTLIL::Module::derive`, `fnmatch`, `RTLIL::unescape_id`, `access` and `Frontend::frontend_call`:
  - `derive` and the front end return `None` when they fail. A failing `derive` is modelled as the error `DeriveFailed`, and a failing front end as `FrontendFailed`. A front end that succeeds without declaring the type raises `LibraryMissingModule`, the error at hierarchy.cc:192-193.
  - Neither of them ever replaces a module the design already has.
- Expand.FixedPoint: the `while (did_something)` loop has no bound in the source. The model gives it `fuel` sweeps and reports `SweepLimit` when they run out, so a run that needs more sweeps is not described.
- Hierarchy.Design.Sweeps: after an error the state of the design is left unspecified, because the source stops the whole pass with `log_error` at that point. The same goes for `Design.ExpandModule`, `Design.Sweep`, `Design.Run`, and `Design.Generate` after a failing type. `Design.ExpandModule` keeps the old design on an error, while the source has by then already stripped earlier cells' types and derived and cleared their parameters (hierarchy.cc:187, 193, 215, 224, 235).
- Generate.ClaimStep: an index beyond the port count is reported as the intended `PortIndexExceeds`, not as the "Conflict on port index" the source raises as written (see Findings); accepting and refusing are the same either way.
- Generate.ClaimPositional: inherits the intended range error from `Generate.ClaimStep`.
- Stubs.GenerateModule: inherits the intended range error from `Generate.ClaimStep`.
- Hierarchy.Design.Generate: inherits the intended range error from `Generate.ClaimStep`.
- Hierarchy.Design.Generate: when a later type fails, the modules already created are kept, and the contract states only which modules exist. Log output and the abort are not modelled.
- Different modules, cells and wires are assumed never to share identity. Identity by pointer (`std::set<RTLIL::Module*>`, the `Module*` keys of `pos_map`, `array_cells` keyed by `Cell*`) is modelled by name:
  - `array_cells` is walked in cell-name order rather than pointer order. That order only decides which array error is reported first.
  - The order of `pos_mods` and `pos_work` has no effect on the result and is not stated.
- Values replace aliasing: the model copies modules and cells instead of updating through pointers. Memory management (`delete mod`) is not modelled.
- The removal count printed by `hierarchy` (hierarchy.cc:281) is only logged and is not modelled.
- `SigSpec::extract` is not visible. A slice outside the signal (an array index at or beyond `num`) is modelled as an error. Signals are sequences of opaque bits, so their width is their length.
- Integer widths: `conn.second.size()` and `ports.size()` are unbounded naturals. `port_id` is an unbounded integer. The `int` results of `strtol`, `atoi` and `find_first_of` are truncated explicitly, as in the source.
- Attributes are modelled as the set of flags set to a true value. Only `\blackbox` and `\top` are read.
- `Stubs` / `Wildcards`: a positional port name that is used twice leaves the wildcard phase with no free index for some name. The source then reads `*indices.begin()` on an empty set (hierarchy.cc:100) before its `assert`. The model reports this as `PortIndicesExhausted`.

## Findings

| source | as written | input that shows it | evidently intended | confidence | as-written member | corrected member |
|---|---|---|---|---|---|---|
| passes/hierarchy/hierarchy.cc:85 | `indices.count(decl.index) > ports.size()` compares a count that is 0 or 1 with the number of ports, which is at least 1 whenever a positional declaration exists, so the range error can never be raised and an out-of-range index is reported as "Conflict on port index" | `hierarchy -generate X i@5:A` with `X` instantiated without connections: one port, index 5 | `decl.index > int(ports.size())`, raising "Port index (5) exceeds number of found ports (1)" | not executed | Generate.AsWrittenMisreportsRange | Generate.IndexCheck |
