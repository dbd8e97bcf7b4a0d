/** The slice of the RTLIL design representation the hierarchy pass reads
    and writes: modules keyed by name, each with its cells, wires and
    boolean attributes, plus the foreign operations the pass calls and the
    fatal errors it reports. */
module Rtlil {
  import opened Wrappers

  /** An RTLIL identifier (`\name` for user names, `$name` for internal ones). */
  type Id = string

  /** A parameter value; the pass only passes parameter maps around. */
  type Const = string

  /** One bit of a signal: a constant or a bit of a wire. */
  datatype SigBit = S0 | S1 | Sx | Sz | WireBit(wire: Id, offset: nat)

  /** A signal; bit 0 first, as in `RTLIL::SigSpec`. */
  type SigSpec = seq<SigBit>

  /** A wire; `portId` 0 means not a port, otherwise the 1-based position. */
  datatype Wire = Wire(width: nat, portId: int, portInput: bool, portOutput: bool)

  datatype Cell = Cell(ctype: Id, parameters: map<Id, Const>, connections: map<Id, SigSpec>)

  /** A module; `attributes` holds the names of the attributes set to a true value. */
  datatype Module = Module(cells: map<Id, Cell>, wires: map<Id, Wire>, attributes: set<Id>)

  const BLACKBOX: Id := "\\blackbox"
  const TOP: Id := "\\top"
  const ABSTRACT_PREFIX: string := "$abstract"

  predicate IsBlackbox(m: Module)
  {
    BLACKBOX in m.attributes
  }

  /** `s[0] == '$'` on a `std::string` (an empty one reads its NUL). */
  predicate StartsWithDollar(s: string)
  {
    |s| > 0 && s[0] == '$'
  }

  /** The operations the pass calls but that are not part of this model:
      `RTLIL::Module::derive` (template name and parameters to the derived
      module's name and contents, None when it fails), `access(path, F_OK)`,
      `Frontend::frontend_call` (path and format to the modules the file
      declares, None when it fails), `RTLIL::unescape_id` and `fnmatch`. */
  datatype Env = Env(
    derive: (Id, map<Id, Const>) -> Option<(Id, Module)>,
    fileExists: string -> bool,
    frontend: (string, string) -> Option<map<Id, Module>>,
    unescape: Id -> string,
    fnmatch: (string, string) -> bool)

  /** The fatal errors of the pass (`log_error`), and its two foreign calls failing. */
  datatype Error =
    | ModuleNotInDesign(ctype: Id, inModule: Id, cell: Id)
    | LibraryMissingModule(file: string, ctype: Id)
    | FrontendFailed(file: string)
    | DeriveFailed(template: Id)
    | ArrayUnknownType(inModule: Id, cell: Id, ctype: Id)
    | ArrayUnknownPort(inModule: Id, cell: Id, port: Id)
    | ArraySizeMismatch(inModule: Id, cell: Id, port: Id)
    | ArraySliceOutOfRange(inModule: Id, cell: Id, port: Id)
    | PortIndexExceeds(index: int, count: nat)
    | PortIndexConflict(index: int)
    | PortUnmatched(port: Id)
    | PortIndicesExhausted(port: Id)
    | SweepLimit

  /** Registers `added` without replacing a module the design already has. */
  function AddModules(mods: map<Id, Module>, added: map<Id, Module>): (r: map<Id, Module>)
    ensures r.Keys == mods.Keys + added.Keys
    ensures forall n :: n in mods ==> r[n] == mods[n]
    ensures forall n :: n in added && n !in mods ==> r[n] == added[n]
  {
    map n | n in mods.Keys + added.Keys :: if n in mods then mods[n] else added[n]
  }
}
