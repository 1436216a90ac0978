/**
 The pure core of `check_pwned_password`: the k-anonymity range query of the
 Pwned Passwords service.

 The password's SHA-1 digest is rendered as forty upper-case hex digits and
 split into a five-digit prefix, which is the only part sent to the service,
 and a 35-digit suffix, which is looked for among the `SUFFIX:COUNT` records
 of the reply. A non-200 status, a transport error or any exception raised
 while reading the reply gives `(False, 0)`.

 SHA-1 over the UTF-8 bytes of the password is the parameter `sha1`; the
 HTTP GET is the parameter `fetch`, from the request URL to the reply.
 */
module Pwned {
  import opened PyText

  predicate IsLowerHex(c: char) { '0' <= c <= '9' || 'a' <= c <= 'f' }

  predicate IsUpperHex(c: char) { '0' <= c <= '9' || 'A' <= c <= 'F' }

  /** What `hashlib.sha1(...).hexdigest()` returns: forty lower-case hex digits. */
  type HexDigest = s: string | |s| == 40 && forall i | 0 <= i < |s| :: IsLowerHex(s[i])
    witness "0000000000000000000000000000000000000000"

  /** Value of a hex digit of either case. */
  function HexValue(c: char): (v: nat)
    requires IsLowerHex(c) || IsUpperHex(c)
    ensures v < 16
  {
    if '0' <= c <= '9' then c as int - '0' as int
    else if 'a' <= c <= 'f' then c as int - 'a' as int + 10
    else c as int - 'A' as int + 10
  }

  /** `c.upper()` for an ASCII character. */
  function UpperChar(c: char): char
  {
    if 'a' <= c <= 'z' then (c as int - 32) as char else c
  }

  /** `digest.upper()`: the same forty digits, written in upper case. */
  function HexUpper(digest: HexDigest): (u: string)
    ensures |u| == 40
    ensures forall i | 0 <= i < 40 :: IsUpperHex(u[i]) && HexValue(u[i]) == HexValue(digest[i])
  {
    seq(40, i requires 0 <= i < 40 => UpperChar(digest[i]))
  }

  /** Number of leading digest digits that are sent to the service. */
  const PrefixLength: nat := 5

  /** `sha1_hash[:5]` and `sha1_hash[5:]`. */
  function SplitDigest(digest: string): (parts: (string, string))
    requires |digest| == 40
    ensures |parts.0| == PrefixLength && |parts.1| == 40 - PrefixLength
    ensures parts.0 + parts.1 == digest
  {
    (digest[..PrefixLength], digest[PrefixLength..])
  }

  const RangeEndpoint: string := "https://api.pwnedpasswords.com/range/"

  /** The request URL: the endpoint followed by the prefix and nothing else. */
  function RangeUrl(prefix: string): (url: string)
    ensures |url| == |RangeEndpoint| + |prefix|
    ensures url[..|RangeEndpoint|] == RangeEndpoint && url[|RangeEndpoint|..] == prefix
  {
    RangeEndpoint + prefix
  }

  /** What `requests.get(url, timeout=10)` gives: a reply already cut into lines, or a `RequestException`. */
  datatype Response = Reply(statusCode: int, lines: seq<string>) | TransportError

  /** The `(bool, int)` pair `check_pwned_password` returns. */
  datatype PwnedResult = PwnedResult(compromised: bool, count: int)

  const NotFound := PwnedResult(false, 0)

  /** What the loop body does with one line. */
  datatype LineOutcome =
    | Skip               // a record for another suffix: go on
    | Hit(count: int)    // the record for our suffix: return `(True, count)`
    | Raise              // `ValueError` from unpacking or from `int(count)`

  /** `hash_suffix, count = line.split(':')`, the comparison and `int(count)`. */
  function ExamineLine(line: string, suffix: string): (r: LineOutcome)
    ensures Occurrences(line, ':') != 1 ==> r == Raise
  {
    var parts := Split(line, ':');
    if |parts| != 2 then Raise
    else if parts[0] != suffix then Skip
    else
      match ParseInt(parts[1])
      case Some(n) => Hit(n)
      case None => Raise
  }

  /** A well-formed record `hash:count` is read as the loop body intends. */
  lemma ExamineRecord(hash: string, count: string, suffix: string)
    requires ':' !in hash && ':' !in count
    ensures hash != suffix ==> ExamineLine(hash + ":" + count, suffix) == Skip
    ensures hash == suffix && ParseInt(count).Some? ==>
      ExamineLine(hash + ":" + count, suffix) == Hit(ParseInt(count).value)
    ensures hash == suffix && ParseInt(count).None? ==>
      ExamineLine(hash + ":" + count, suffix) == Raise
  {
    JoinCons(hash, [count], ':');
    SplitJoin([hash, count], ':');
  }

  /** Every line before `i` is a record for another suffix. */
  predicate SkippedBefore(lines: seq<string>, suffix: string, i: nat)
    requires i <= |lines|
  {
    forall j | 0 <= j < i :: ExamineLine(lines[j], suffix) == Skip
  }

  /** The return value `r` is what the loop does when it reaches `line`. */
  predicate Decides(line: string, suffix: string, r: PwnedResult)
  {
    match ExamineLine(line, suffix)
    case Hit(n) => r == PwnedResult(true, n)
    case Raise => r == NotFound
    case Skip => true
  }

  /**
   The `for line in response.text.splitlines()` loop with the exception
   handler around it: the first line that is not skipped decides.
   */
  function Scan(lines: seq<string>, suffix: string): (r: PwnedResult)
    ensures forall i | 0 <= i < |lines| && SkippedBefore(lines, suffix, i) :: Decides(lines[i], suffix, r)
    ensures SkippedBefore(lines, suffix, |lines|) ==> r == NotFound
    ensures r.compromised ==> exists i | 0 <= i < |lines| ::
      SkippedBefore(lines, suffix, i) && ExamineLine(lines[i], suffix) == Hit(r.count)
    ensures !r.compromised ==> r == NotFound
  {
    if lines == [] then NotFound
    else
      match ExamineLine(lines[0], suffix)
      case Hit(n) =>
        assert SkippedBefore(lines, suffix, 0);
        PwnedResult(true, n)
      case Raise => NotFound
      case Skip =>
        var r := Scan(lines[1..], suffix);
        SkipStep(lines, suffix, r);
        r
  }

  /** What `Scan` promises about the tail carries over past a skipped first line. */
  lemma SkipStep(lines: seq<string>, suffix: string, r: PwnedResult)
    requires |lines| > 0 && ExamineLine(lines[0], suffix) == Skip
    requires var tail := lines[1..];
      && (forall i | 0 <= i < |tail| && SkippedBefore(tail, suffix, i) :: Decides(tail[i], suffix, r))
      && (SkippedBefore(tail, suffix, |tail|) ==> r == NotFound)
      && (r.compromised ==> exists i | 0 <= i < |tail| ::
            SkippedBefore(tail, suffix, i) && ExamineLine(tail[i], suffix) == Hit(r.count))
    ensures forall i | 0 <= i < |lines| && SkippedBefore(lines, suffix, i) :: Decides(lines[i], suffix, r)
    ensures SkippedBefore(lines, suffix, |lines|) ==> r == NotFound
    ensures r.compromised ==> exists i | 0 <= i < |lines| ::
      SkippedBefore(lines, suffix, i) && ExamineLine(lines[i], suffix) == Hit(r.count)
  {
    SkippedTail(lines, suffix);
    if r.compromised {
      var i :| 0 <= i < |lines| - 1 && SkippedBefore(lines[1..], suffix, i)
        && ExamineLine(lines[1..][i], suffix) == Hit(r.count);
      assert SkippedBefore(lines, suffix, i + 1);
    }
  }

  /** Past a skipped first line, the lines skipped are those of the tail. */
  lemma SkippedTail(lines: seq<string>, suffix: string)
    requires |lines| > 0 && ExamineLine(lines[0], suffix) == Skip
    ensures forall i | 1 <= i <= |lines| ::
      SkippedBefore(lines, suffix, i) <==> SkippedBefore(lines[1..], suffix, i - 1)
    ensures forall i | 1 <= i < |lines| :: lines[1..][i - 1] == lines[i]
    ensures SkippedBefore(lines, suffix, 1)
  {
    forall i | 1 <= i <= |lines|
      ensures SkippedBefore(lines, suffix, i) <==> SkippedBefore(lines[1..], suffix, i - 1)
    {
      assert forall j | 0 <= j < i - 1 :: lines[1..][j] == lines[j + 1];
    }
  }

  /** The upper-case digest of a password. */
  function DigestOf(password: string, sha1: string -> HexDigest): string
  {
    HexUpper(sha1(password))
  }

  /** The one request the check makes for a password. */
  function RequestUrl(password: string, sha1: string -> HexDigest): string
  {
    RangeUrl(SplitDigest(DigestOf(password, sha1)).0)
  }

  /** `check_pwned_password(password)`. */
  function CheckPwnedPassword(password: string, sha1: string -> HexDigest, fetch: string -> Response): (r: PwnedResult)
    ensures !r.compromised ==> r == NotFound
    ensures r.compromised ==>
      && fetch(RequestUrl(password, sha1)).Reply?
      && fetch(RequestUrl(password, sha1)).statusCode == 200
      && var lines := fetch(RequestUrl(password, sha1)).lines;
         exists i | 0 <= i < |lines| ::
           && SkippedBefore(lines, DigestOf(password, sha1)[PrefixLength..], i)
           && ExamineLine(lines[i], DigestOf(password, sha1)[PrefixLength..]) == Hit(r.count)
  {
    var (prefix, suffix) := SplitDigest(DigestOf(password, sha1));
    match fetch(RangeUrl(prefix))
    case TransportError => NotFound
    case Reply(status, lines) =>
      if status == 200 then Scan(lines, suffix) else NotFound
  }

  /**
   k-anonymity: passwords whose digests agree on the first five digits send
   the same request, and the result depends on the service only through the
   reply to that request.
   */
  lemma OnlyPrefixLeaves(p: string, q: string, sha1: string -> HexDigest,
                         fetch: string -> Response, fetch': string -> Response)
    requires DigestOf(p, sha1)[..PrefixLength] == DigestOf(q, sha1)[..PrefixLength]
    requires fetch(RequestUrl(p, sha1)) == fetch'(RequestUrl(p, sha1))
    ensures RequestUrl(p, sha1) == RequestUrl(q, sha1)
    ensures |RequestUrl(p, sha1)| == |RangeEndpoint| + PrefixLength
    ensures CheckPwnedPassword(p, sha1, fetch) == CheckPwnedPassword(p, sha1, fetch')
  {
  }

  /** A non-200 status or a transport error gives `(False, 0)`. */
  lemma UnavailableIsNotFound(password: string, sha1: string -> HexDigest, fetch: string -> Response)
    requires fetch(RequestUrl(password, sha1)).TransportError?
      || fetch(RequestUrl(password, sha1)).statusCode != 200
    ensures CheckPwnedPassword(password, sha1, fetch) == NotFound
  {
  }

  /**
   A 200 reply whose lines are all well-formed records `hash:count`: the
   count of the first record for the digest's suffix, or `(False, 0)` when
   there is none.
   */
  lemma WellFormedReply(password: string, sha1: string -> HexDigest, fetch: string -> Response,
                        hashes: seq<string>, counts: seq<string>)
    requires |hashes| == |counts|
    requires forall i | 0 <= i < |hashes| ::
      ':' !in hashes[i] && ':' !in counts[i] && ParseInt(counts[i]).Some?
    requires fetch(RequestUrl(password, sha1)) ==
      Reply(200, seq(|hashes|, i requires 0 <= i < |hashes| => hashes[i] + ":" + counts[i]))
    ensures forall i | 0 <= i < |hashes| && hashes[i] == DigestOf(password, sha1)[PrefixLength..]
        && (forall j | 0 <= j < i :: hashes[j] != DigestOf(password, sha1)[PrefixLength..]) ::
      CheckPwnedPassword(password, sha1, fetch) == PwnedResult(true, ParseInt(counts[i]).value)
    ensures (forall i | 0 <= i < |hashes| :: hashes[i] != DigestOf(password, sha1)[PrefixLength..]) ==>
      CheckPwnedPassword(password, sha1, fetch) == NotFound
  {
    var suffix := DigestOf(password, sha1)[PrefixLength..];
    var lines := seq(|hashes|, i requires 0 <= i < |hashes| => hashes[i] + ":" + counts[i]);
    forall i | 0 <= i < |hashes|
      ensures hashes[i] != suffix ==> ExamineLine(lines[i], suffix) == Skip
      ensures hashes[i] == suffix ==> ExamineLine(lines[i], suffix) == Hit(ParseInt(counts[i]).value)
    {
      ExamineRecord(hashes[i], counts[i], suffix);
    }
  }

  /**
   An exception before a match gives `(False, 0)`: a line that is not split
   into exactly two parts by `:`, or a matching record whose count is not an
   integer.
   */
  lemma ExceptionIsNotFound(password: string, sha1: string -> HexDigest, fetch: string -> Response, i: nat)
    requires fetch(RequestUrl(password, sha1)).Reply?
    requires fetch(RequestUrl(password, sha1)).statusCode == 200
    requires i < |fetch(RequestUrl(password, sha1)).lines|
    requires SkippedBefore(fetch(RequestUrl(password, sha1)).lines, DigestOf(password, sha1)[PrefixLength..], i)
    requires var line := fetch(RequestUrl(password, sha1)).lines[i];
      || Occurrences(line, ':') != 1
      || (exists count | ':' !in count && ParseInt(count).None? ::
            line == DigestOf(password, sha1)[PrefixLength..] + ":" + count)
    ensures CheckPwnedPassword(password, sha1, fetch) == NotFound
  {
    var lines := fetch(RequestUrl(password, sha1)).lines;
    var suffix := DigestOf(password, sha1)[PrefixLength..];
    if Occurrences(lines[i], ':') == 1 {
      var count :| ':' !in count && ParseInt(count).None? && lines[i] == suffix + ":" + count;
      SuffixHasNoColon(password, sha1);
      ExamineRecord(suffix, count, suffix);
    }
    assert ExamineLine(lines[i], suffix) == Raise;
  }

  /** A reply holding the record `SUFFIX:3000000` for the digest reports 3000000 exposures. */
  lemma KnownBreachExample(password: string, sha1: string -> HexDigest, fetch: string -> Response)
    requires fetch(RequestUrl(password, sha1)) == Reply(200, [DigestOf(password, sha1)[PrefixLength..] + ":" + "3000000"])
    ensures CheckPwnedPassword(password, sha1, fetch) == PwnedResult(true, 3000000)
  {
    MillionsRecord();
    SingleRecord(password, sha1, fetch, "3000000");
  }

  lemma MillionsRecord()
    ensures ':' !in "3000000" && ParseInt("3000000") == Some(3000000)
  {
    ParseMillions();
  }

  lemma SingleRecord(password: string, sha1: string -> HexDigest, fetch: string -> Response, count: string)
    requires ':' !in count && ParseInt(count).Some?
    requires fetch(RequestUrl(password, sha1)) == Reply(200, [DigestOf(password, sha1)[PrefixLength..] + ":" + count])
    ensures CheckPwnedPassword(password, sha1, fetch) == PwnedResult(true, ParseInt(count).value)
  {
    var suffix := DigestOf(password, sha1)[PrefixLength..];
    var lines := [suffix + ":" + count];
    SuffixHasNoColon(password, sha1);
    ExamineRecord(suffix, count, suffix);
    assert SkippedBefore(lines, suffix, 0);
  }

  /** The digest suffix is hex, so it holds no `:`. */
  lemma SuffixHasNoColon(password: string, sha1: string -> HexDigest)
    ensures ':' !in DigestOf(password, sha1)[PrefixLength..]
  {
    var suffix := DigestOf(password, sha1)[PrefixLength..];
    forall k | 0 <= k < |suffix|
      ensures suffix[k] != ':'
    {
      assert IsUpperHex(DigestOf(password, sha1)[k + PrefixLength]);
    }
  }
}
