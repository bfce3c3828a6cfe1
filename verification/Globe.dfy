/** Boxes and rasters on the globe, in degrees. */
module Globe {

  datatype Bbox = Bbox(minLon: real, minLat: real, maxLon: real, maxLat: real)

  /** Sharing more than an edge. */
  predicate Intersects(a: Bbox, b: Bbox) {
    a.minLon < b.maxLon && a.maxLon > b.minLon && a.minLat < b.maxLat && a.maxLat > b.minLat
  }

  /** Where a north-up raster lies: its north-west corner and its extent. */
  datatype Georef = Georef(originX: real, originY: real, width: real, height: real) {
    predicate Valid() { width > 0.0 && height > 0.0 }

    function Extent(): Bbox { Bbox(originX, originY - height, originX + width, originY) }
  }
}
