/**
 * One imported row: the mutable `ActivityData` record with its null-normalising
 * setters, and `Row`, the value of a record whose fields are all set, which is
 * what the diagram builder reads.
 */
module ActivityRecord {
  import opened Wrappers
  import opened JavaText

  /** The fields of a record read together; `None` is a Java `null`. */
  datatype Fields = Fields(
    name: Option<string>,
    documentation: Option<string>,
    outputs: Option<seq<string>>,
    inputs: Option<seq<string>>,
    actor: Option<string>,
    isSubAction: bool,
    parentName: Option<string>)

  /**
   * A record without null name, documentation or pin lists. `actor` and
   * `parentName` stay optional because the builder tests them for `null`.
   */
  datatype Row = Row(
    name: string,
    documentation: string,
    outputs: seq<string>,
    inputs: seq<string>,
    actor: Option<string>,
    isSubAction: bool,
    parentName: Option<string>)

  /** The value of a record made by the default constructor. */
  const EmptyRow: Row := Row("", "", [], [], Some(""), false, Some(""))

  class ActivityData {
    var name: Option<string>
    var documentation: Option<string>
    var outputs: Option<seq<string>>
    var inputs: Option<seq<string>>
    var actor: Option<string>
    var isSubAction: bool
    var parentName: Option<string>

    function State(): Fields
      reads this
    {
      Fields(name, documentation, outputs, inputs, actor, isSubAction, parentName)
    }

    /** No field the builder dereferences is null. */
    predicate Complete()
      reads this
    {
      name.Some? && documentation.Some? && outputs.Some? && inputs.Some?
    }

    /** The record read as a value. */
    function Value(): Row
      reads this
      requires Complete()
    {
      Row(name.value, documentation.value, outputs.value, inputs.value, actor, isSubAction, parentName)
    }

    /** The default constructor: empty strings, empty lists, not a sub-action. */
    constructor ()
      ensures Complete() && Value() == EmptyRow
    {
      name := Some("");
      documentation := Some("");
      outputs := Some([]);
      inputs := Some([]);
      actor := Some("");
      isSubAction := false;
      parentName := Some("");
    }

    /** The three-argument constructor stores its arguments as given, nulls included. */
    constructor WithFields(name: Option<string>, documentation: Option<string>, outputs: Option<seq<string>>)
      ensures State() == Fields(name, documentation, outputs, Some([]), Some(""), false, Some(""))
    {
      this.name := name;
      this.documentation := documentation;
      this.outputs := outputs;
      inputs := Some([]);
      actor := Some("");
      isSubAction := false;
      parentName := Some("");
    }

    /** A null name is stored as the empty string. */
    method SetName(n: Option<string>)
      modifies this
      ensures State() == old(State()).(name := Some(n.GetOr("")))
    {
      name := Some(n.GetOr(""));
    }

    /** A null documentation is stored as the empty string. */
    method SetDocumentation(d: Option<string>)
      modifies this
      ensures State() == old(State()).(documentation := Some(d.GetOr("")))
    {
      documentation := Some(d.GetOr(""));
    }

    /** A null list is stored as a new empty list. */
    method SetOutputs(os: Option<seq<string>>)
      modifies this
      ensures State() == old(State()).(outputs := Some(os.GetOr([])))
    {
      outputs := Some(os.GetOr([]));
    }

    /** A null list is stored as a new empty list. */
    method SetInputs(ins: Option<seq<string>>)
      modifies this
      ensures State() == old(State()).(inputs := Some(ins.GetOr([])))
    {
      inputs := Some(ins.GetOr([]));
    }

    /**
     * Appends the trimmed value unless it is null or blank. Appending to a null
     * list is Java's `NullPointerException`, reported as `thrown`.
     */
    method AddOutput(o: Option<string>) returns (thrown: bool)
      modifies this
      ensures thrown <==> o.Some? && !IsBlank(o.value) && old(outputs).None?
      ensures !thrown && o.Some? && !IsBlank(o.value) ==>
                State() == old(State()).(outputs := Some(old(outputs).value + [Trim(o.value)]))
      ensures thrown || o.None? || IsBlank(o.value) ==> State() == old(State())
    {
      thrown := false;
      if o.Some? && !IsBlank(o.value) {
        if outputs.None? {
          thrown := true;
        } else {
          outputs := Some(outputs.value + [Trim(o.value)]);
        }
      }
    }
  }
}
