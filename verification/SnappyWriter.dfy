/**
 Any of the four writers, as the decompressor sees them.  The contracts say what every writer
 must do for the decompressor to be right, and each writer is shown to do it.
 */
module SnappyWriter {
  import opened Bytes
  import opened SnappyFormat
  import opened SnappyWriters
  import opened SnappyIOVec
  import opened SnappyScattered

  datatype Writer =
    | Flat(flat: ArrayWriter)
    | Check(check: Validator)
    | Vec(vec: IOVecWriter)
    | Scatter(scatter: ScatteredWriter)
  {
    /** The writer object itself. */
    ghost function Base(): object {
      match this
      case Flat(w) => w
      case Check(w) => w
      case Vec(w) => w
      case Scatter(w) => w
    }

    ghost function Repr(): set<object>
      reads Base()
    {
      match this
      case Flat(w) => {w, w.dst}
      case Check(w) => {w}
      case Vec(w) => {w} + (set o: object | o in w.iov)
      case Scatter(w) => {w} + (set o: object | o in w.blocks)
    }

    ghost predicate Valid()
      reads Base(), Repr()
    {
      match this
      case Flat(w) => w.Valid()
      case Check(w) => w.Valid()
      case Vec(w) => w.Valid()
      case Scatter(w) => w.Valid()
    }

    ghost function Out(): seq<Byte>
      requires Valid()
      reads Base(), Repr()
    {
      match this
      case Flat(w) => w.Out()
      case Check(w) => w.out
      case Vec(w) => w.out
      case Scatter(w) => w.out
    }

    ghost function Expected(): nat
      reads Base()
    {
      match this
      case Flat(w) => w.opLimit
      case Check(w) => w.expected
      case Vec(w) => w.limit
      case Scatter(w) => w.expected
    }

    /** There is room for the expected output; only a list of buffers can lack it. */
    ghost predicate Roomy()
      reads Base()
    {
      match this
      case Vec(w) => w.Roomy()
      case _ => true
    }

    /** Nothing was written yet, a flat buffer has room for `len` bytes, and a list of buffers is
        not empty unless `len` is zero. */
    ghost predicate Ready(len: nat)
      reads Base(), Repr()
    {
      && Valid() && Out() == []
      && match this
         case Flat(w) => len <= w.dst.Length
         case Scatter(w) => w.blocks == []
         case Vec(w) => w.iov == [] ==> len == 0
         case Check(w) => true
    }

    method SetExpectedLength(len: nat)
      requires Ready(len)
      modifies Base()
      ensures Valid() && Out() == [] && Expected() == len && Repr() == old(Repr())
      ensures Vec? ==> (Roomy() <==> len <= Start(vec.iov, |vec.iov|))
    {
      match this
      case Flat(w) => w.SetExpectedLength(len);
      case Check(w) => w.SetExpectedLength(len);
      case Vec(w) => w.SetExpectedLength(len);
      case Scatter(w) => w.SetExpectedLength(len);
    }

    method Append(data: seq<Byte>) returns (ok: bool)
      requires Valid()
      modifies Repr()
      ensures fresh(Repr() - old(Repr())) && Expected() == old(Expected()) && Roomy() == old(Roomy())
      ensures ok ==> Valid()
      ensures Roomy() ==> ok == (|old(Out())| + |data| <= Expected())
      ensures Roomy() && ok ==> Out() == old(Out()) + data
    {
      match this
      case Flat(w) => ok := w.Append(data);
      case Check(w) => ok := w.Append(data, |data|);
      case Vec(w) => ok := w.Append(data);
      case Scatter(w) => ok := w.Append(data);
    }

    method TryFastAppend(window: seq<Byte>, len: nat) returns (ok: bool)
      requires Valid()
      modifies Repr()
      ensures Repr() == old(Repr()) && Expected() == old(Expected()) && Roomy() == old(Roomy()) && Valid()
      ensures ok ==> len <= 16 && |window| >= 21 && |old(Out())| + len <= Expected()
      ensures ok ==> Out() == old(Out()) + window[..len]
      ensures !ok ==> Out() == old(Out())
    {
      match this
      case Flat(w) => ok := w.TryFastAppend(window, len);
      case Check(w) => ok := false;
      case Vec(w) => ok := w.TryFastAppend(window, len);
      case Scatter(w) => ok := w.TryFastAppend(window, len);
    }

    method AppendFromSelf(offset: nat, len: nat) returns (ok: bool)
      requires Valid()
      modifies Repr()
      ensures fresh(Repr() - old(Repr())) && Expected() == old(Expected()) && Roomy() == old(Roomy())
      ensures ok ==> Valid()
      ensures Roomy() ==> ok == (1 <= offset <= |old(Out())| && |old(Out())| + len <= Expected())
      ensures Roomy() && ok ==> Out() == CopyBack(old(Out()), offset, len)
    {
      match this
      case Flat(w) => ok := w.AppendFromSelf(offset, len);
      case Check(w) => ok := w.AppendFromSelf(offset, len);
      case Vec(w) => ok := w.AppendFromSelf(offset, len);
      case Scatter(w) => ok := w.AppendFromSelf(offset, len);
    }

    method CheckLength() returns (ok: bool)
      requires Valid()
      ensures ok == (|Out()| == Expected())
      ensures ok ==> Roomy()
    {
      match this
      case Flat(w) => ok := w.op == w.opLimit;
      case Check(w) => ok := w.expected == w.produced;
      case Vec(w) =>
        w.Bounded();
        ok := w.total == w.limit;
      case Scatter(w) => ok := w.fullSize + w.opPtr == w.expected;
    }
  }
}
