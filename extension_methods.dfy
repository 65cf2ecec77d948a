/** `Clear(this bool[])`: resets every flag of an array. */
module ExtensionMethods {

  method Clear(flags: array<bool>)
    modifies flags
    ensures forall i :: 0 <= i < flags.Length ==> !flags[i]
  {
    var i := 0;
    while i < flags.Length
      invariant 0 <= i <= flags.Length
      invariant forall j :: 0 <= j < i ==> !flags[j]
    {
      flags[i] := false;
      i := i + 1;
    }
  }

  /** A radio group's selection: clears every flag, then sets the chosen one, so
      that exactly that flag is set. */
  method Select(flags: array<bool>, chosen: int)
    requires 0 <= chosen < flags.Length
    modifies flags
    ensures forall i :: 0 <= i < flags.Length ==> (flags[i] <==> i == chosen)
  {
    Clear(flags);
    flags[chosen] := true;
  }
}
