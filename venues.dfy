/**
 * The venue catalogue: the record shape of a venue (the fields of a Google
 * Places result the app keeps), the fixed mock catalogue of fifteen date-night
 * venues, and the helper that renders a price tier as dollar signs.
 */
module Venues {

  /** One venue card. `rating` is a decimal literal the app only displays. */
  datatype Venue = Venue(
    id: string,
    name: string,
    rating: real,
    priceLevel: int,   // 0 (free) to 4 (very expensive)
    photoUrl: string,
    address: string,
    types: seq<string>)

  /** Every venue's price tier lies in 0..4. */
  ghost predicate PriceLevelsInRange(vs: seq<Venue>)
  {
    forall i :: 0 <= i < |vs| ==> 0 <= vs[i].priceLevel <= 4
  }

  /** No two venues share an id. */
  ghost predicate DistinctIds(vs: seq<Venue>)
  {
    forall i, j :: 0 <= i < j < |vs| ==> vs[i].id != vs[j].id
  }

  const MockVenues: seq<Venue> := [
    Venue("venue_001", "The Moonlit Bistro", 4.7, 3,
      "https://images.unsplash.com/photo-1517248135467-4c7edcad34c4?w=800",
      "123 Harbor St, Downtown", ["restaurant", "fine_dining", "romantic"]),
    Venue("venue_002", "Neon Nights Arcade Bar", 4.5, 2,
      "https://images.unsplash.com/photo-1511882150382-421056c89033?w=800",
      "456 Electric Ave, Arts District", ["bar", "arcade", "entertainment"]),
    Venue("venue_003", "Starlight Rooftop", 4.8, 4,
      "https://images.unsplash.com/photo-1514933651103-005eec06c04b?w=800",
      "789 Skyline Blvd, West End", ["bar", "rooftop", "cocktails"]),
    Venue("venue_004", "Cozy Corner Café", 4.3, 1,
      "https://images.unsplash.com/photo-1501339847302-ac426a4a7cbb?w=800",
      "321 Grove St, Old Town", ["cafe", "coffee", "casual"]),
    Venue("venue_005", "Twilight Jazz Lounge", 4.6, 3,
      "https://images.unsplash.com/photo-1514525253161-7a46d19cd819?w=800",
      "555 Melody Ln, Theater District", ["bar", "live_music", "jazz"]),
    Venue("venue_006", "Sunset Sushi & Sake", 4.9, 3,
      "https://images.unsplash.com/photo-1579584425555-c3ce17fd4351?w=800",
      "888 Ocean Dr, Marina", ["restaurant", "japanese", "sushi"]),
    Venue("venue_007", "The Book Nook Wine Bar", 4.4, 2,
      "https://images.unsplash.com/photo-1572116469696-31de0f17cc34?w=800",
      "234 Library St, University District", ["bar", "wine_bar", "books"]),
    Venue("venue_008", "Flame & Fork Steakhouse", 4.7, 4,
      "https://images.unsplash.com/photo-1544025162-d76694265947?w=800",
      "999 Prime Ave, Financial District", ["restaurant", "steakhouse", "upscale"]),
    Venue("venue_009", "Velvet Underground Club", 4.2, 2,
      "https://images.unsplash.com/photo-1566737236500-c8ac43014a67?w=800",
      "777 Beat St, Warehouse District", ["nightclub", "dancing", "dj"]),
    Venue("venue_010", "Garden Terrace Italian", 4.6, 3,
      "https://images.unsplash.com/photo-1559339352-11d035aa65de?w=800",
      "456 Vineyard Rd, Hillside", ["restaurant", "italian", "patio"]),
    Venue("venue_011", "Craft Beer Collective", 4.5, 2,
      "https://images.unsplash.com/photo-1608270586620-248524c67de9?w=800",
      "123 Hops St, Brewery Row", ["bar", "brewery", "craft_beer"]),
    Venue("venue_012", "Midnight Taco Cantina", 4.4, 1,
      "https://images.unsplash.com/photo-1565299585323-38d6b0865b47?w=800",
      "890 Salsa Blvd, Mission District", ["restaurant", "mexican", "casual"]),
    Venue("venue_013", "The Cinema Café", 4.3, 2,
      "https://images.unsplash.com/photo-1489599849927-2ee91cede3ba?w=800",
      "567 Screen St, Entertainment Complex", ["cafe", "cinema", "entertainment"]),
    Venue("venue_014", "Harbour Seafood Grill", 4.8, 3,
      "https://images.unsplash.com/photo-1559339352-11d035aa65de?w=800",
      "111 Pier Walk, Waterfront", ["restaurant", "seafood", "waterfront"]),
    Venue("venue_015", "Retro Diner & Shakes", 4.1, 1,
      "https://images.unsplash.com/photo-1552566626-52f8b828add9?w=800",
      "345 Nostalgia Ave, Suburbs", ["restaurant", "diner", "american"])
  ]

  /** The number an id ends in, read from its last two (decimal) characters. */
  ghost function IdNumber(id: string): (n: int)
    requires |id| >= 2
  {
    (id[|id| - 2] as int - '0' as int) * 10 + (id[|id| - 1] as int - '0' as int)
  }

  /** The catalogue's ids are numbered in order: the venue at index `i` ends in `i + 1`. */
  lemma MockIdsNumbered(i: nat)
    requires i < |MockVenues|
    ensures |MockVenues[i].id| == 9 && IdNumber(MockVenues[i].id) == i + 1
  {
  }

  /** The venue at index `i` has a tier in 0..4. */
  lemma MockPriceLevelInRange(i: nat)
    requires i < |MockVenues|
    ensures 0 <= MockVenues[i].priceLevel <= 4
  {
  }

  /** The catalogue holds fifteen venues, with distinct ids and tiers in 0..4. */
  lemma MockVenuesWellFormed()
    ensures |MockVenues| == 15
    ensures PriceLevelsInRange(MockVenues)
    ensures DistinctIds(MockVenues)
  {
    forall i | 0 <= i < |MockVenues|
      ensures 0 <= MockVenues[i].priceLevel <= 4
    {
      MockPriceLevelInRange(i);
    }
    forall i, j | 0 <= i < j < |MockVenues|
      ensures MockVenues[i].id != MockVenues[j].id
    {
      MockIdsNumbered(i);
      MockIdsNumbered(j);
    }
  }

  /** `c` repeated `n` times, as `String.prototype.repeat` does. */
  function Repeat(c: char, n: nat): (r: string)
    ensures |r| == n
    ensures forall i :: 0 <= i < |r| ==> r[i] == c
  {
    if n == 0 then "" else Repeat(c, n - 1) + [c]
  }

  /**
   * The price tier shown as dollar signs: the tier is clamped into 1..4
   * (so a free venue still shows one sign) and that many '$' are produced.
   */
  function PriceLevelDisplay(priceLevel: int): (r: string)
    ensures forall i :: 0 <= i < |r| ==> r[i] == '$'
    ensures 1 <= |r| <= 4
    ensures 1 <= priceLevel <= 4 ==> |r| == priceLevel
    ensures priceLevel <= 1 ==> r == "$"
    ensures priceLevel >= 4 ==> r == "$$$$"
  {
    var tier := if 4 < priceLevel then 4 else priceLevel;
    var clamped := if tier < 1 then 1 else tier;
    Repeat('$', clamped)
  }

  /** A higher tier never shows fewer dollar signs. */
  lemma PriceLevelDisplayMonotone(p: int, q: int)
    requires p <= q
    ensures |PriceLevelDisplay(p)| <= |PriceLevelDisplay(q)|
  {
  }
}
