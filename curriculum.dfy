/**
 * The content models of rendercv/data_model.py: social networks, the derived
 * connections of a CV, the CV itself and the root document.
 */
module Curriculum {
  import opened Wrappers
  import opened Events
  import opened Themes

  /** `network: Literal["LinkedIn", "GitHub", "Instagram"]` */
  datatype Network = LinkedIn | GitHub | Instagram

  function NetworkName(n: Network): string
  {
    match n
    case LinkedIn => "LinkedIn"
    case GitHub => "GitHub"
    case Instagram => "Instagram"
  }

  /** Validating a network name: only the three literals are accepted. */
  function ParseNetwork(s: string): Option<Network>
  {
    if s == "LinkedIn" then Some(LinkedIn)
    else if s == "GitHub" then Some(GitHub)
    else if s == "Instagram" then Some(Instagram)
    else None
  }

  /** A name is accepted exactly when it is the name of the network it yields. */
  lemma NetworkRoundTrip(s: string, n: Network)
    ensures ParseNetwork(s) == Some(n) <==> s == NetworkName(n)
  {
  }

  datatype SocialNetwork = SocialNetwork(network: Network, username: string)

  /** `name: Literal["LinkedIn", "GitHub", "Instagram", "phone", "email", "website"]` */
  datatype ConnectionName = Phone | Email | Website | Social(network: Network)

  function ConnectionNameString(c: ConnectionName): string
  {
    match c
    case Phone => "phone"
    case Email => "email"
    case Website => "website"
    case Social(n) => NetworkName(n)
  }

  datatype Connection = Connection(name: ConnectionName, value: string)

  /** `CurriculumVitae`; each section is a list of entries of its own variant. */
  datatype CurriculumVitae = CurriculumVitae(
    name: string,
    email: Option<string>,
    phone: Option<string>,
    website: Option<string>,
    location: Option<string>,
    socialNetworks: Option<seq<SocialNetwork>>,
    education: Option<seq<Event>>,
    workExperience: Option<seq<Event>>,
    academicProjects: Option<seq<Event>>,
    personalProjects: Option<seq<Event>>,
    certificates: Option<seq<Event>>,
    extracurricularActivities: Option<seq<Event>>,
    testScores: Option<seq<Event>>,
    skills: Option<seq<Event>>)

  /** `RenderCVDataModel`: the root value handed to the renderer. */
  datatype RenderCVDataModel = RenderCVDataModel(design: Design, cv: CurriculumVitae)

  /** The position of each kind of connection in the list: phone, email, website, then social networks. */
  function Rank(c: ConnectionName): nat
  {
    match c
    case Phone => 0
    case Email => 1
    case Website => 2
    case Social(_) => 3
  }

  function Count(o: Option<string>): nat
  {
    if o.Some? then 1 else 0
  }

  function SocialNetworksOf(cv: CurriculumVitae): seq<SocialNetwork>
  {
    if cv.socialNetworks.Some? then cv.socialNetworks.value else []
  }

  /** The social network entry `n` as a connection. */
  function SocialConnection(n: SocialNetwork): (c: Connection)
    ensures Rank(c.name) == 3 && ConnectionNameString(c.name) == NetworkName(n.network)
    ensures c.name == Social(n.network) && c.value == n.username
  {
    Connection(Social(n.network), n.username)
  }

  /** The social networks, in order, as connections. */
  function Socials(ns: seq<SocialNetwork>): (r: seq<Connection>)
    ensures |r| == |ns|
    ensures forall k :: 0 <= k < |ns| ==> r[k] == SocialConnection(ns[k])
  {
    seq(|ns|, k requires 0 <= k < |ns| => SocialConnection(ns[k]))
  }

  lemma SocialsAppend(ns: seq<SocialNetwork>, n: SocialNetwork)
    ensures Socials(ns + [n]) == Socials(ns) + [SocialConnection(n)]
  {
    assert forall k :: 0 <= k < |ns| ==> (ns + [n])[k] == ns[k];
  }

  /** The CV field a contact connection takes its value from; a social network has none. */
  function ContactField(cv: CurriculumVitae, name: ConnectionName): Option<string>
  {
    match name
    case Phone => cv.phone
    case Email => cv.email
    case Website => cv.website
    case Social(_) => None
  }

  function ContactCount(cv: CurriculumVitae): nat
  {
    Count(cv.phone) + Count(cv.email) + Count(cv.website)
  }

  /** Phone before email before website before the social networks. */
  ghost predicate RankOrdered(r: seq<Connection>)
  {
    forall i, j :: 0 <= i < j < |r| ==> Rank(r[i].name) <= Rank(r[j].name)
  }

  /** Every phone, email or website connection carries the CV's value. */
  ghost predicate ValuesFromCV(cv: CurriculumVitae, r: seq<Connection>)
  {
    forall i :: 0 <= i < |r| && !r[i].name.Social? ==> ContactField(cv, r[i].name) == Some(r[i].value)
  }

  /** Every phone, email or website the CV gives is listed. */
  ghost predicate ContactsListed(cv: CurriculumVitae, r: seq<Connection>)
  {
    forall name :: ContactField(cv, name).Some? ==> Connection(name, ContactField(cv, name).value) in r
  }

  /**
   * What `connections` promises of its result `r`: phone, email and website,
   * each exactly when present and with its value, ordered before the social
   * networks, which follow one per entry in input order.
   */
  ghost predicate IsConnectionList(cv: CurriculumVitae, r: seq<Connection>)
  {
    var ns := SocialNetworksOf(cv);
    && |r| == ContactCount(cv) + |ns|
    && RankOrdered(r)
    && ValuesFromCV(cv, r)
    && ContactsListed(cv, r)
    && r[|r| - |ns|..] == Socials(ns)
  }

  /** The phone, email and website part of the list, before the social networks are added. */
  ghost predicate IsContactList(cv: CurriculumVitae, cs: seq<Connection>)
  {
    && |cs| == ContactCount(cv)
    && (forall i :: 0 <= i < |cs| ==> !cs[i].name.Social?)
    && RankOrdered(cs)
    && ValuesFromCV(cv, cs)
    && ContactsListed(cv, cs)
  }

  function Optional(name: ConnectionName, o: Option<string>): seq<Connection>
  {
    if o.Some? then [Connection(name, o.value)] else []
  }

  /** The phone, email and website entries, each present exactly when its field is, in that order. */
  lemma OptionalContactsAreContactList(cv: CurriculumVitae)
    ensures IsContactList(cv, Optional(Phone, cv.phone) + Optional(Email, cv.email) + Optional(Website, cv.website))
  {
    var p, e, w := Optional(Phone, cv.phone), Optional(Email, cv.email), Optional(Website, cv.website);
    var cs := p + e + w;
    forall i | 0 <= i < |cs|
      ensures i < |p| ==> cs[i] == p[0]
      ensures |p| <= i < |p| + |e| ==> cs[i] == e[0]
      ensures |p| + |e| <= i ==> cs[i] == w[0]
    {
      if i < |p| + |e| {
        assert cs[i] == (p + e)[i];
      }
    }
    forall name | ContactField(cv, name).Some?
      ensures Connection(name, ContactField(cv, name).value) in cs
    {
      if name == Phone {
        assert cs[0] == p[0];
      } else if name == Email {
        assert cs[|p|] == e[0];
      } else {
        assert cs[|p| + |e|] == w[0];
      }
    }
  }

  /** Social connections after a contact list keep the order, the values and the listing. */
  lemma ContactsThenSocials(cv: CurriculumVitae, cs: seq<Connection>, ss: seq<Connection>)
    requires IsContactList(cv, cs)
    requires forall k :: 0 <= k < |ss| ==> ss[k].name.Social?
    ensures RankOrdered(cs + ss) && ValuesFromCV(cv, cs + ss) && ContactsListed(cv, cs + ss)
  {
    var r := cs + ss;
    forall i | 0 <= i < |r|
      ensures i < |cs| ==> r[i] == cs[i] && Rank(r[i].name) < 3
      ensures |cs| <= i ==> r[i] == ss[i - |cs|] && Rank(r[i].name) == 3
    {
    }
    forall name | ContactField(cv, name).Some?
      ensures Connection(name, ContactField(cv, name).value) in r
    {
      var i :| 0 <= i < |cs| && cs[i] == Connection(name, ContactField(cv, name).value);
      assert r[i] == cs[i];
    }
  }

  /** Phone, email and website as given, then the social networks in order, make the connection list. */
  lemma ContactsThenSocialsAreConnectionList(cv: CurriculumVitae, r: seq<Connection>)
    requires r == Optional(Phone, cv.phone) + Optional(Email, cv.email) + Optional(Website, cv.website)
                  + Socials(SocialNetworksOf(cv))
    ensures IsConnectionList(cv, r)
  {
    var cs := Optional(Phone, cv.phone) + Optional(Email, cv.email) + Optional(Website, cv.website);
    var ss := Socials(SocialNetworksOf(cv));
    OptionalContactsAreContactList(cv);
    ContactsThenSocials(cv, cs, ss);
    assert r[|cs|..] == ss;
  }

  /** `connections`, built by appending in the source's order. */
  method Connections(cv: CurriculumVitae) returns (r: seq<Connection>)
    ensures IsConnectionList(cv, r)
  {
    var connections: seq<Connection> := [];
    if cv.phone.Some? {
      connections := connections + [Connection(Phone, cv.phone.value)];
    }
    assert connections == Optional(Phone, cv.phone);
    if cv.email.Some? {
      connections := connections + [Connection(Email, cv.email.value)];
    }
    assert connections == Optional(Phone, cv.phone) + Optional(Email, cv.email);
    if cv.website.Some? {
      connections := connections + [Connection(Website, cv.website.value)];
    }
    var contacts := connections;
    assert contacts == Optional(Phone, cv.phone) + Optional(Email, cv.email) + Optional(Website, cv.website);
    if cv.socialNetworks.Some? {
      connections := AppendSocials(connections, cv.socialNetworks.value);
    }
    r := connections;
    ContactsThenSocialsAreConnectionList(cv, r);
  }

  /** The loop over `social_networks`: one connection appended per network, in order. */
  method AppendSocials(connections: seq<Connection>, networks: seq<SocialNetwork>) returns (r: seq<Connection>)
    ensures r == connections + Socials(networks)
  {
    r := connections;
    for k := 0 to |networks|
      invariant r == connections + Socials(networks[..k])
    {
      SocialsAppend(networks[..k], networks[k]);
      assert networks[..k + 1] == networks[..k] + [networks[k]];
      r := r + [SocialConnection(networks[k])];
    }
    assert networks[..|networks|] == networks;
  }

  /** Phone X, email Y and social networks A, B give exactly [phone X, email Y, A, B]. */
  lemma ConnectionsExample(cv: CurriculumVitae, r: seq<Connection>, x: string, y: string, a: SocialNetwork, b: SocialNetwork)
    requires cv.phone == Some(x) && cv.email == Some(y) && cv.website.None? && cv.socialNetworks == Some([a, b])
    requires IsConnectionList(cv, r)
    ensures r == [Connection(Phone, x), Connection(Email, y), SocialConnection(a), SocialConnection(b)]
  {
    assert |r| == 4;
    assert r[2..] == Socials([a, b]);
    assert r[2] == SocialConnection(a) && r[3] == SocialConnection(b);
    assert Connection(Phone, x) in r by { assert ContactField(cv, Phone) == Some(x); }
    assert Connection(Email, y) in r by { assert ContactField(cv, Email) == Some(y); }
    var ip :| 0 <= ip < |r| && r[ip] == Connection(Phone, x);
    var ie :| 0 <= ie < |r| && r[ie] == Connection(Email, y);
    assert ip < 2 && ie < 2;
    assert ip == 0 && ie == 1;
  }
}
