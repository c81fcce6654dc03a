/** Which names an envelope may carry: the host names of section 2.1 of RFC 1123, spelt out octet by octet. */
module Socks5Names {
  import opened Bytes
  import opened Socks5Udp

  predicate LetterOrDigit(b: Byte)
  {
    var c := b as char;
    '0' <= c <= '9' || 'A' <= c <= 'Z' || 'a' <= c <= 'z'
  }

  /** One to sixty-three letters, digits and hyphens, with no hyphen at either end. */
  predicate Label(text: seq<Byte>)
  {
    && 0 < |text| < 64
    && forall i :: 0 <= i < |text| ==> LetterOrDigit(text[i]) || (text[i] as char == '-' && 0 < i < |text| - 1)
  }

  /** The labels with a dot between any two. */
  function Dotted(labels: seq<seq<Byte>>): seq<Byte>
    requires labels != []
  {
    if |labels| == 1 then labels[0] else labels[0] + [46] + Dotted(labels[1..])
  }

  ghost predicate HostName(name: seq<Byte>)
  {
    |name| < 254 && exists labels :: labels != [] && Dotted(labels) == name && forall l :: l in labels ==> Label(l)
  }

  lemma {:induction false} LabelExact(text: seq<Byte>)
    ensures ValidLabel(text) <==> Label(text)
  {
  }

  /** Joining the labels gives the name back. */
  lemma {:induction false} LabelsJoin(name: seq<Byte>)
    ensures Dotted(Labels(name)) == name
  {
    if name == [] {
    } else {
      LabelsJoin(name[1..]);
      var rest, labels := Labels(name[1..]), Labels(name);
      assert labels[1..] == if name[0] == DOT then rest else rest[1..];
      assert name == [name[0]] + name[1..];
    }
  }

  /** And a dotted list of dotless labels is split into just these labels. */
  lemma {:induction false} LabelsUnique(labels: seq<seq<Byte>>)
    requires labels != [] && forall l :: l in labels ==> 46 !in l
    ensures Labels(Dotted(labels)) == labels
    decreases |labels|, |labels[0]|
  {
    var name, first := Dotted(labels), labels[0];
    if first == [] {
      if |labels| == 1 {
        assert labels == [[]];
      } else {
        LabelsUnique(labels[1..]);
        assert name[0] == 46 && name[1..] == Dotted(labels[1..]);
        assert labels == [[]] + labels[1..];
      }
    } else {
      var shorter := [first[1..]] + labels[1..];
      assert shorter[1..] == labels[1..];
      assert first[0] in first && first in labels;
      LabelsUnique(shorter);
      assert name[0] == first[0] && name[1..] == Dotted(shorter);
      assert [first[0]] + first[1..] == first;
      assert labels == [first] + labels[1..];
    }
  }

  /** A name is accepted exactly if it is a host name of at most 253 octets. */
  lemma {:induction false} NameExact(name: seq<Byte>)
    ensures ValidDomain(name) <==> HostName(name)
  {
    hide ValidLabel, Label, Labels, Dotted;
    if ValidDomain(name) {
      LabelsJoin(name);
      forall l | l in Labels(name) ensures Label(l) {
        LabelExact(l);
      }
    }
    if HostName(name) {
      var labels :| labels != [] && Dotted(labels) == name && forall l :: l in labels ==> Label(l);
      forall l | l in labels ensures 46 !in l && l != [] && ValidLabel(l) {
        NoDot(l);
        LabelExact(l);
      }
      LabelsUnique(labels);
      DottedLength(labels);
      assert labels[0] in labels && forall i :: 0 <= i < |labels| ==> labels[i] in labels;
    }
  }

  lemma {:induction false} NoDot(l: seq<Byte>)
    requires Label(l)
    ensures 46 !in l && l != []
  {
  }

  lemma {:induction false} DottedLength(labels: seq<seq<Byte>>)
    requires labels != []
    ensures |Dotted(labels)| >= |labels[0]|
  {
  }
}
