/** librsync and gzip, seen from outside: nothing is assumed of them beyond the
    round trips, and that neither takes the other's files for its own. */
module Librsync {
  import opened Wrappers

  /** The bytes of a file, as they stand on disk or as a program reads them. */
  type Bytes = string

  /** `delta(basis, target)`: the delta that turns `basis` into `target`.
      `patch(basis, d)`: what applying `d` to `basis` gives, `None` for an error.
      `gunzip(x)`: what the gzip file `x` holds, `None` if it is not one. */
  datatype Codec = Codec(
    delta: (Bytes, Bytes) -> Bytes,
    patch: (Bytes, Bytes) -> Option<Bytes>,
    gzip: Bytes -> Bytes,
    gunzip: Bytes -> Option<Bytes>)
  {
    ghost predicate Valid() {
      && (forall basis, target :: patch(basis, delta(basis, target)) == Some(target))
      && (forall x :: gunzip(gzip(x)) == Some(x)) && gunzip("") == None
    }

    /** Both formats begin with magic numbers: a gzip file is no delta. */
    ghost predicate RefusesGzip() {
      forall basis, x :: patch(basis, gzip(x)) == None
    }

    /** Written through `gzopen` or `fopen`. */
    function Stored(gz: bool, x: Bytes): Bytes { if gz then gzip(x) else x }

    /** Read through `gzopen`, which hands on what is not a gzip file, or `fopen`. */
    function ReadAs(gz: bool, raw: Bytes): Bytes {
      if gz && gunzip(raw).Some? then gunzip(raw).value else raw
    }

    /** What `zlib_inflate` makes of a file, or the file itself; an empty file is let
        through, anything else that is not a gzip file is an error. */
    function Inflated(gz: bool, raw: Bytes): Option<Bytes> {
      if gz && raw != "" then gunzip(raw) else Some(raw)
    }

    lemma StoredReads(gz: bool, x: Bytes)
      requires Valid()
      ensures ReadAs(gz, Stored(gz, x)) == x && Inflated(gz, Stored(gz, x)) == Some(x)
    {
    }
  }

  /** A simple one, for examples: a delta is the target behind a `d`, a compressed
      file its content behind a `z`. */
  function SampleCodec(): Codec {
    Codec((basis: Bytes, target: Bytes) => "d" + target,
          (basis: Bytes, d: Bytes) => if d != "" && d[0] == 'd' then Some(d[1..]) else None,
          (x: Bytes) => "z" + x,
          (x: Bytes) => if x != "" && x[0] == 'z' then Some(x[1..]) else None)
  }

  lemma SampleIsValid()
    ensures SampleCodec().Valid() && SampleCodec().RefusesGzip()
  {
  }
}
