/** A self-delimiting wire encoding of reports, built from variable-length numbers. */
module ReportCodec {
  import opened Basics
  import opened Fleet
  import opened Receipts

  /** How a value is written, and read back from the front of a byte string. */
  datatype Field<!T> = Field(put: T -> Bytes, get: Bytes -> Option<(T, Bytes)>)

  /** What was written reads back, whatever follows it. */
  ghost predicate SelfDelimiting<T(!new)>(f: Field<T>)
  {
    forall x: T, rest: Bytes :: |f.put(x)| > 0 && f.get(f.put(x) + rest) == Some((x, rest))
  }

  // ---- numbers -----------------------------------------------------------------------------

  /** Seven bits to a byte, the low ones first; the top bit says that more follow. */
  function PutVarint(v: nat): Bytes
  {
    if v < 128 then [v] else [128 + v % 128] + PutVarint(v / 128)
  }

  function GetVarint(b: Bytes): Option<(nat, Bytes)>
  {
    if b == [] then None
    else if b[0] < 128 then Some((b[0], b[1..]))
    else
      match GetVarint(b[1..])
      case None => None
      case Some((high, rest)) => Some((b[0] - 128 + 128 * high, rest))
  }

  /** A byte with the top bit set contributes the low digit. */
  lemma GetContinued(first: u8, b: Bytes)
    requires first >= 128 && GetVarint(b).Some?
    ensures var (high, rest) := GetVarint(b).value;
            GetVarint([first] + b) == Some((first - 128 + 128 * high, rest))
  {
    assert ([first] + b)[1..] == b;
  }

  lemma {:induction false} VarintRoundTrip(v: nat, rest: Bytes)
    ensures |PutVarint(v)| > 0 && GetVarint(PutVarint(v) + rest) == Some((v, rest))
  {
    if v < 128 {
      assert ([v] + rest)[1..] == rest;
    } else {
      var high, low := v / 128, v % 128;
      VarintRoundTrip(high, rest);
      GetContinued(128 + low, PutVarint(high) + rest);
      assert PutVarint(v) + rest == [128 + low] + (PutVarint(high) + rest);
    }
  }

  const NUMBER: Field<nat> := Field(PutVarint, GetVarint)

  lemma NumberDelimits()
    ensures SelfDelimiting(NUMBER)
  {
    forall x: nat, rest: Bytes
      ensures |NUMBER.put(x)| > 0 && NUMBER.get(NUMBER.put(x) + rest) == Some((x, rest))
    {
      VarintRoundTrip(x, rest);
    }
  }

  // ---- combinators -------------------------------------------------------------------------

  /** One value after another. */
  function Both<A, B>(f: Field<A>, g: Field<B>): Field<(A, B)>
  {
    Field((p: (A, B)) => f.put(p.0) + g.put(p.1), b => GetBoth(f, g, b))
  }

  function GetBoth<A, B>(f: Field<A>, g: Field<B>, b: Bytes): Option<((A, B), Bytes)>
  {
    match f.get(b)
    case None => None
    case Some((x, rest)) =>
      match g.get(rest)
      case None => None
      case Some((y, rest')) => Some(((x, y), rest'))
  }

  lemma BothDelimits<A(!new), B(!new)>(f: Field<A>, g: Field<B>)
    requires SelfDelimiting(f) && SelfDelimiting(g)
    ensures SelfDelimiting(Both(f, g))
  {
    forall p: (A, B), rest: Bytes
      ensures |Both(f, g).put(p)| > 0 && Both(f, g).get(Both(f, g).put(p) + rest) == Some((p, rest))
    {
      assert f.put(p.0) + g.put(p.1) + rest == f.put(p.0) + (g.put(p.1) + rest);
      assert |f.put(p.0)| > 0 && f.get(f.put(p.0) + (g.put(p.1) + rest)) == Some((p.0, g.put(p.1) + rest));
      assert g.get(g.put(p.1) + rest) == Some((p.1, rest));
    }
  }

  /** A value of another type, given by one of this type. */
  function Through<A, B>(f: Field<A>, to: A -> B, from: B -> A): Field<B>
  {
    Field(y => f.put(from(y)), b => GetThrough(f, to, b))
  }

  function GetThrough<A, B>(f: Field<A>, to: A -> B, b: Bytes): Option<(B, Bytes)>
  {
    match f.get(b)
    case None => None
    case Some((x, rest)) => Some((to(x), rest))
  }

  lemma ThroughDelimits<A(!new), B(!new)>(f: Field<A>, to: A -> B, from: B -> A)
    requires SelfDelimiting(f) && forall y: B :: to(from(y)) == y
    ensures SelfDelimiting(Through(f, to, from))
  {
    var field := Through(f, to, from);
    forall y: B, rest: Bytes
      ensures |field.put(y)| > 0 && field.get(field.put(y) + rest) == Some((y, rest))
    {
      var x := from(y);
      assert field.put(y) == f.put(x);
      assert f.get(f.put(x) + rest) == Some((x, rest)) && |f.put(x)| > 0;
      assert to(from(y)) == y;
    }
  }

  /** The number of elements, then the elements. */
  function Many<A>(f: Field<A>): Field<seq<A>>
  {
    Field((s: seq<A>) => PutVarint(|s|) + PutAll(f, s), b => GetMany(f, b))
  }

  function PutAll<A>(f: Field<A>, s: seq<A>): Bytes
  {
    if s == [] then [] else f.put(s[0]) + PutAll(f, s[1..])
  }

  function GetMany<A>(f: Field<A>, b: Bytes): Option<(seq<A>, Bytes)>
  {
    match GetVarint(b)
    case None => None
    case Some((count, rest)) => GetAll(f, count, rest)
  }

  function GetAll<A>(f: Field<A>, count: nat, b: Bytes): Option<(seq<A>, Bytes)>
  {
    if count == 0 then Some(([], b))
    else
      match f.get(b)
      case None => None
      case Some((x, rest)) =>
        match GetAll(f, count - 1, rest)
        case None => None
        case Some((s, rest')) => Some(([x] + s, rest'))
  }

  lemma {:induction false} AllRoundTrip<A(!new)>(f: Field<A>, s: seq<A>, rest: Bytes)
    requires SelfDelimiting(f)
    ensures GetAll(f, |s|, PutAll(f, s) + rest) == Some((s, rest))
    decreases |s|
  {
    if s == [] {
      assert PutAll(f, s) + rest == rest;
    } else {
      AllRoundTrip(f, s[1..], rest);
      assert PutAll(f, s) + rest == f.put(s[0]) + (PutAll(f, s[1..]) + rest);
      assert f.get(f.put(s[0]) + (PutAll(f, s[1..]) + rest)) == Some((s[0], PutAll(f, s[1..]) + rest));
      assert [s[0]] + s[1..] == s;
    }
  }

  lemma ManyRoundTrip<A(!new)>(f: Field<A>, s: seq<A>, rest: Bytes)
    requires SelfDelimiting(f)
    ensures |PutVarint(|s|) + PutAll(f, s)| > 0
    ensures GetMany(f, (PutVarint(|s|) + PutAll(f, s)) + rest) == Some((s, rest))
  {
    hide PutVarint, GetVarint, PutAll, GetAll, SelfDelimiting;
    VarintRoundTrip(|s|, PutAll(f, s) + rest);
    AllRoundTrip(f, s, rest);
    assert (PutVarint(|s|) + PutAll(f, s)) + rest == PutVarint(|s|) + (PutAll(f, s) + rest);
  }

  lemma ManyDelimits<A(!new)>(f: Field<A>)
    requires SelfDelimiting(f)
    ensures SelfDelimiting(Many(f))
  {
    hide PutVarint, PutAll, GetMany;
    forall s: seq<A>, rest: Bytes
      ensures |Many(f).put(s)| > 0 && Many(f).get(Many(f).put(s) + rest) == Some((s, rest))
    {
      ManyRoundTrip(f, s, rest);
    }
  }

  /** An optional value, as a list of at most one. */
  function Maybe<A>(f: Field<A>): Field<Option<A>>
  {
    Through(Many(f), (s: seq<A>) => if s == [] then None else Some(s[0]),
            (o: Option<A>) => if o.None? then [] else [o.value])
  }

  lemma MaybeDelimits<A(!new)>(f: Field<A>)
    requires SelfDelimiting(f)
    ensures SelfDelimiting(Maybe(f))
  {
    ManyDelimits(f);
    ThroughDelimits(Many(f), (s: seq<A>) => if s == [] then None else Some(s[0]),
                    (o: Option<A>) => if o.None? then [] else [o.value]);
  }

  // ---- the parts of a report ---------------------------------------------------------------

  function ByteOf(n: nat): u8 { n % 0x100 }
  function ByteNumber(b: u8): nat { b }

  const RAW: Field<Bytes> := Many(Through(NUMBER, ByteOf, ByteNumber))

  function DoubleOf(n: nat): Double { n % 0x1_0000_0000_0000_0000 }
  function DoubleNumber(d: Double): nat { d }

  const REWARD: Field<Option<Double>> := Maybe(Through(NUMBER, DoubleOf, DoubleNumber))

  function KindOf(n: nat): Kind { if n == 0 then Single else SymmetricPair }
  function KindNumber(k: Kind): nat { if k.Single? then 0 else 1 }

  const KIND: Field<Kind> := Through(NUMBER, KindOf, KindNumber)

  function FormatOf(p: (nat, nat)): Format { Format(p.0, p.1) }
  function FormatParts(f: Format): (nat, nat) { (f.kind, f.adapter) }

  const FORMAT: Field<Format> := Through(Both(NUMBER, NUMBER), FormatOf, FormatParts)

  function DescriptorFrom(p: ((Format, Bytes), (nat, Format))): Descriptor
  {
    Descriptor(Digest(p.0.0, p.0.1), p.1.0, p.1.1)
  }

  function DescriptorParts(d: Descriptor): ((Format, Bytes), (nat, Format))
  {
    ((d.digest.format, d.digest.bytes), (d.size, d.format))
  }

  const DESCRIPTOR: Field<Descriptor> :=
    Through(Both(Both(FORMAT, RAW), Both(NUMBER, FORMAT)), DescriptorFrom, DescriptorParts)

  function KeyFrom(p: ((Kind, nat), ((nat, nat), seq<(nat, Descriptor)>))): MeasurementKey
  {
    MeasurementKey(p.0.0, p.0.1, p.1.0.0, p.1.0.1, p.1.1)
  }

  function KeyParts(k: MeasurementKey): ((Kind, nat), ((nat, nat), seq<(nat, Descriptor)>))
  {
    ((k.kind, k.engine), ((k.configHash, k.target), k.subjects))
  }

  const KEY: Field<MeasurementKey> :=
    Through(Both(Both(KIND, NUMBER), Both(Both(NUMBER, NUMBER), Many(Both(NUMBER, DESCRIPTOR)))), KeyFrom, KeyParts)

  lemma KeyDelimits()
    ensures SelfDelimiting(KIND) && SelfDelimiting(KEY)
  {
    hide SelfDelimiting;
    NumberDelimits();
    ThroughDelimits(NUMBER, ByteOf, ByteNumber);
    ManyDelimits(Through(NUMBER, ByteOf, ByteNumber));
    ThroughDelimits(NUMBER, KindOf, KindNumber);
    BothDelimits(NUMBER, NUMBER);
    ThroughDelimits(Both(NUMBER, NUMBER), FormatOf, FormatParts);
    BothDelimits(FORMAT, RAW);
    BothDelimits(NUMBER, FORMAT);
    BothDelimits(Both(FORMAT, RAW), Both(NUMBER, FORMAT));
    ThroughDelimits(Both(Both(FORMAT, RAW), Both(NUMBER, FORMAT)), DescriptorFrom, DescriptorParts);
    BothDelimits(NUMBER, DESCRIPTOR);
    ManyDelimits(Both(NUMBER, DESCRIPTOR));
    BothDelimits(Both(NUMBER, NUMBER), Many(Both(NUMBER, DESCRIPTOR)));
    BothDelimits(KIND, NUMBER);
    BothDelimits(Both(KIND, NUMBER), Both(Both(NUMBER, NUMBER), Many(Both(NUMBER, DESCRIPTOR))));
    ThroughDelimits(
      Both(Both(KIND, NUMBER), Both(Both(NUMBER, NUMBER), Many(Both(NUMBER, DESCRIPTOR)))), KeyFrom, KeyParts);
  }

  function SubjectFrom(p: ((nat, nat), (nat, Option<Double>))): Subject
  {
    Subject(p.0.0, p.0.1, p.1.0, p.1.1)
  }

  function SubjectParts(s: Subject): ((nat, nat), (nat, Option<Double>))
  {
    ((s.logicalIndex, s.graphHash), (s.metadataBytes, s.reward))
  }

  const SUBJECT: Field<Subject> := Through(Both(Both(NUMBER, NUMBER), Both(NUMBER, REWARD)), SubjectFrom, SubjectParts)

  function SampleFrom(p: ((nat, nat), nat)): Sample { Sample(p.0.0, p.0.1, p.1) }
  function SampleParts(s: Sample): ((nat, nat), nat) { ((s.scheduleIndex, s.logicalIndex), s.subjectSampleIndex) }

  const SAMPLE: Field<Sample> := Through(Both(Both(NUMBER, NUMBER), NUMBER), SampleFrom, SampleParts)

  function OutcomeOf(n: nat): Outcome
  {
    if n == 0 then Unknown else if n == 1 then Unspecified else if n == 2 then Succeeded else Failed(n - 3)
  }

  function OutcomeNumber(o: Outcome): nat
  {
    match o
    case Unknown => 0
    case Unspecified => 1
    case Succeeded => 2
    case Failed(code) => code + 3
  }

  const OUTCOME: Field<Outcome> := Through(NUMBER, OutcomeOf, OutcomeNumber)

  type Evidence = ((seq<Subject>, seq<Sample>), (nat, (Outcome, Option<nat>)))

  const EVIDENCE: Field<Evidence> :=
    Both(Both(Many(SUBJECT), Many(SAMPLE)), Both(NUMBER, Both(OUTCOME, Maybe(NUMBER))))

  lemma EvidenceDelimits()
    ensures SelfDelimiting(EVIDENCE)
  {
    hide SelfDelimiting;
    NumberDelimits();
    ThroughDelimits(NUMBER, DoubleOf, DoubleNumber);
    MaybeDelimits(Through(NUMBER, DoubleOf, DoubleNumber));
    BothDelimits(NUMBER, NUMBER);
    BothDelimits(NUMBER, REWARD);
    BothDelimits(Both(NUMBER, NUMBER), Both(NUMBER, REWARD));
    ThroughDelimits(Both(Both(NUMBER, NUMBER), Both(NUMBER, REWARD)), SubjectFrom, SubjectParts);
    BothDelimits(Both(NUMBER, NUMBER), NUMBER);
    ThroughDelimits(Both(Both(NUMBER, NUMBER), NUMBER), SampleFrom, SampleParts);
    ThroughDelimits(NUMBER, OutcomeOf, OutcomeNumber);
    ManyDelimits(SUBJECT);
    ManyDelimits(SAMPLE);
    BothDelimits(Many(SUBJECT), Many(SAMPLE));
    MaybeDelimits(NUMBER);
    BothDelimits(OUTCOME, Maybe(NUMBER));
    BothDelimits(NUMBER, Both(OUTCOME, Maybe(NUMBER)));
    BothDelimits(Both(Many(SUBJECT), Many(SAMPLE)), Both(NUMBER, Both(OUTCOME, Maybe(NUMBER))));
  }

  // ---- reports -----------------------------------------------------------------------------

  /** Job, lease, device, origin, profile. */
  type Origin = (((MeasurementKey, nat), nat), (nat, (nat, nat)))

  /** Key, nonce, config, kind, engine. */
  type Identity = ((MeasurementKey, nat), (nat, (Kind, nat)))

  function ReportOf(p: ((Origin, Identity), Evidence)): Report
  {
    var ((origin, identity), evidence) := p;
    Report(JobId(origin.0.0.0, origin.0.0.1), origin.0.1, origin.1.0, origin.1.1.0, origin.1.1.1,
           identity.0.0, identity.0.1, identity.1.0, identity.1.1.0, identity.1.1.1,
           evidence.0.0, evidence.0.1, evidence.1.0, evidence.1.1.0, evidence.1.1.1)
  }

  function ReportParts(r: Report): ((Origin, Identity), Evidence)
  {
    (((((r.job.key, r.job.nonce), r.lease), (r.device, (r.origin, r.profile))),
      ((r.key, r.nonce), (r.configHash, (r.kind, r.engine)))),
     ((r.subjects, r.samples), (r.telemetry, (r.outcome, r.failureMessage))))
  }

  const ORIGIN: Field<Origin> := Both(Both(Both(KEY, NUMBER), NUMBER), Both(NUMBER, Both(NUMBER, NUMBER)))
  const IDENTITY: Field<Identity> := Both(Both(KEY, NUMBER), Both(NUMBER, Both(KIND, NUMBER)))
  const REPORT: Field<Report> := Through(Both(Both(ORIGIN, IDENTITY), EVIDENCE), ReportOf, ReportParts)

  lemma ReportDelimits()
    ensures SelfDelimiting(REPORT)
  {
    hide SelfDelimiting;
    NumberDelimits();
    KeyDelimits();
    EvidenceDelimits();
    BothDelimits(KEY, NUMBER);
    BothDelimits(Both(KEY, NUMBER), NUMBER);
    BothDelimits(NUMBER, NUMBER);
    BothDelimits(NUMBER, Both(NUMBER, NUMBER));
    BothDelimits(Both(Both(KEY, NUMBER), NUMBER), Both(NUMBER, Both(NUMBER, NUMBER)));
    BothDelimits(KIND, NUMBER);
    BothDelimits(NUMBER, Both(KIND, NUMBER));
    BothDelimits(Both(KEY, NUMBER), Both(NUMBER, Both(KIND, NUMBER)));
    BothDelimits(ORIGIN, IDENTITY);
    BothDelimits(Both(ORIGIN, IDENTITY), EVIDENCE);
    ThroughDelimits(Both(Both(ORIGIN, IDENTITY), EVIDENCE), ReportOf, ReportParts);
  }

  /** A field as a codec for whole messages. */
  function CodecOf(f: Field<Report>): Codec
  {
    Codec(f.put, b => GetWhole(f, b))
  }

  function GetWhole(f: Field<Report>, b: Bytes): Option<Report>
  {
    match f.get(b)
    case None => None
    case Some((report, rest)) => if rest == [] then Some(report) else None
  }

  lemma CodecIsLawful(f: Field<Report>)
    requires SelfDelimiting(f)
    ensures Lawful(CodecOf(f))
  {
    forall r: Report
      ensures |CodecOf(f).encode(r)| > 0 && CodecOf(f).decode(CodecOf(f).encode(r)) == Some(r)
    {
      assert |f.put(r)| > 0 && f.get(f.put(r) + []) == Some((r, []));
      assert f.put(r) + [] == f.put(r);
    }
  }

  const WIRE: Codec := CodecOf(REPORT)

  /** Every report, whatever its contents, decodes from its own encoding. */
  lemma WireIsLawful()
    ensures Lawful(WIRE)
  {
    hide SelfDelimiting, Lawful;
    ReportDelimits();
    CodecIsLawful(REPORT);
  }
}
