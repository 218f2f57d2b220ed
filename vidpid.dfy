/** The vendor/product allow-list that device discovery filters by. */
module VidPid {

  /** `strings.ToLower` on one character, for ASCII letters. */
  function LowerChar(c: char): char
  {
    if 'A' <= c <= 'Z' then (c as int + 32) as char else c
  }

  /** `strings.ToLower` on ASCII text: same length, each letter lowered. */
  function Lower(s: string): (r: string)
    ensures |r| == |s|
  {
    seq(|s|, i requires 0 <= i < |s| => LowerChar(s[i]))
  }

  /** The known devices, as "vid:pid": the Raspberry Pi Pico. */
  const ValidVIDPIDs: seq<string> := ["2e8a:000a"]

  /** The search loop of `validateVIDPID`: true at the first entry whose
      lower-case form equals that of `vidpid`. */
  function MatchesAny(vidpid: string, list: seq<string>): bool
  {
    if list == [] then false
    else if Lower(vidpid) == Lower(list[0]) then true
    else MatchesAny(vidpid, list[1..])
  }

  function ValidateVIDPID(vid: string, pid: string): bool
  {
    MatchesAny(vid + ":" + pid, ValidVIDPIDs)
  }

  /** The search returns true iff some entry matches, ignoring case. */
  lemma {:induction false} MatchesAnyIff(vidpid: string, list: seq<string>)
    ensures MatchesAny(vidpid, list) <==>
      exists i :: 0 <= i < |list| && Lower(vidpid) == Lower(list[i])
  {
    if list != [] && Lower(vidpid) != Lower(list[0]) {
      MatchesAnyIff(vidpid, list[1..]);
      forall i | 1 <= i < |list|
        ensures list[i] == list[1..][i - 1]
      {
      }
    }
  }

  /** A device is accepted iff "vid:pid", lower-cased, is "2e8a:000a". */
  lemma ValidateVIDPIDIff(vid: string, pid: string)
    ensures ValidateVIDPID(vid, pid) <==> Lower(vid + ":" + pid) == "2e8a:000a"
  {
    MatchesAnyIff(vid + ":" + pid, ValidVIDPIDs);
    assert Lower(ValidVIDPIDs[0]) == "2e8a:000a";
  }

  /** Upper-case identifiers, as some platforms report them, are accepted. */
  lemma ValidateVIDPIDIgnoresCase()
    ensures ValidateVIDPID("2E8A", "000A")
    ensures !ValidateVIDPID("2e8a", "0003")
  {
    ValidateVIDPIDIff("2E8A", "000A");
    ValidateVIDPIDIff("2e8a", "0003");
    assert Lower("2E8A" + ":" + "000A") == "2e8a:000a";
    assert Lower("2e8a" + ":" + "0003")[8] == '3';
  }
}
